# Verified model of the controller-agent system

A controller drives many agents over a framed binary TCP protocol. Agents report heartbeats and load; a two-second
health-check tick drops silent agents, resends unacknowledged commands with exponential backoff, and evaluates
policies that switch all agents between modes with CMD_SET_MODE commands. This project models that system in Dafny and
proves what it does over every run.

`dafny verify dfyconfig.toml` verifies everything.

## Layout

| file | what it holds |
|---|---|
| `ByteSerializer.dfy`, `Crc32.dfy`, `BinaryMessageParser.dfy` | big-endian words, the CRC-32 and its algebra, the frame printer and parser |
| `Framing.dfy` | what a read loop delivers from an arbitrary byte stream |
| `WritePump.dfy`, `TcpComm.dfy` | the write side as a state machine, and the connection object that implements both sides |
| `Sessions.dfy`, `AgentTcpSession.dfy` | the state of one session, and the session object with its shared message on the heap |
| `AgentCore.dfy`, `Agent.dfy` | the agent's duplicate filter, and the agent object |
| `Inbox.dfy` | what the controller makes of the messages agents send |
| `StateStore.dfy` | the store of reported loads and their mean |
| `Policies.dfy`, `Hysteresis.dfy` | the policy loop, and its hysteresis over runs of the system |
| `System.dfy` | controller, sessions, connections and agents as one state machine: `State`, `Event`, `Step`, `Run` |
| `Registry.dfy`, `CommandOrder.dfy`, `Parity.dfy`, `Acknowledgements.dfy`, `Quiescence.dfy`, `Accounting.dfy`, `Timeliness.dfy` | theorems about every run of that machine |
| `Handlers.dfy` | what single events do, exactly, in every reachable state |
| `Restarts.dfy` | agents that outlive controllers |
| `Witnesses.dfy` | runs in which the code does not do what one might expect |
| `EndToEnd.dfy` | the order of commands, for an agent that is fed bytes |
| `ControllerLoops.dfy`, `Controller.dfy` | the controller object; its handlers take exactly the steps of `System.dfy` |
| `MessagePool.dfy` | the message recycler |
| `Constants.dfy`, `Options.dfy`, `Sums.dfy` | small helpers |

## How the pieces fit

- **Shared message.** A session owns one CMD_SET_MODE message; every pending entry is a reference to it, so a resend
  transmits whatever command was issued last, not the one the entry is filed under. `AgentTcpSession.dfy` keeps the
  message as a heap object and proves that the object behaves as a `Session` value whose entries store no command.
  `System.dfy` is built on that value.
- **Bytes.** `System.dfy` passes commands, not bytes. `Agents.BytesRefineCommands` is the bridge: whatever the write
  pump does and wherever the byte stream is cut, the agent ends up as if it had been given some first commands directly.
  `EndToEnd.LatestModeWinsOverBytes` crosses it with a run of the system: what is proved of commands holds of an agent
  that reads bytes. `EndToEnd.RepliesNameFrames` is the way back: the agent's answers reach the controller as
  acknowledgements of the very frames it got, which grounds the assumption of `Acknowledgements.AcknowledgedMeansApplied`.
- **Runs.** `System.Run` folds `Step` over any list of events. Agents are unconstrained: any connection may carry any
  message at any time, including undecodable ones and repeated HELLOs; sockets may close, time may pass and agents may
  reconnect at any point.
- **Restarts.** `Initial` starts a controller among new agents; `Started` among agents with any memories. The invariant
  holds from `Started`, and `Restarts.dfy` chains any number of controller lifetimes.
- **Bound.** Theorems about the order of command ids assume `Bounded`: at most 2^32 - 1 commands in one controller lifetime, so that
  ids stay below the agent's initial memory 0xFFFFFFFF. Ids wrap at 32 bits in the model as in the source. The theorems
  of `Parity.dfy`, `Hysteresis.dfy` and `Registry.dfy` need no bound.
- **Time** is in milliseconds and monotone. A tick takes time: for every session it reads the clock anew for the health
  check, for the timeout check, and twice for each command issued. Its `Clock` holds these readings, any offsets within
  the length of the tick, so a session may turn unhealthy between two commands of one tick.
- **Closing.** `closeAsked` and `drainAsked` record on a connection that its closing was requested. When the socket
  then closes is an event of its own; `WritePump.dfy` says what was written by then.

## Where the code does not do what one might expect

- A HELLO on a connection whose session was displaced takes the agent id over again; it is the only event on a foreign
  connection that touches a registered session (`Registry.Isolation`, an if-and-only-if; `Registry.LateHelloTakesOver`
  is a run in which it happens).
- deserialize computes the frame size in 32 bits. A payload of more than 2^32 - 28 bytes is parsed correctly but
  reported with the wrong size, so the read loop silently skips it (`BinaryMessageParser.RoundTrip`,
  `Framing.DeframeOne`). When the input has at least the 23 bytes of the header and at least the wrapped size, but not
  the true one, deserialize reads past its end, which the model reports as `OutOfBounds`; on any other short input it
  returns null (`BinaryMessageParser.OutOfBoundsExactly`). So "every strict prefix of a frame is incomplete" holds
  exactly up to that payload length (`BinaryMessageParser.StrictPrefixIncomplete`), and up to that length the silent
  branch of the read loop is unreachable (`Framing.DeframeCanonical`).
- The comment on the backoff lists five waits, 1 s to 16 s. The code waits a sixth time, 32 s, before it gives up, so
  failure comes no earlier than 63 s (`Sessions.BackoffTimeline`).
- Overlapping thresholds (`low > high`) make a tick issue two contradictory commands (`Policies.OneCommandPerTick`).
- Once a newer command has been issued, an older pending command is never transmitted again under its own id
  (`CommandOrder.SupersededNeverResent`; `Witnesses.EntryIsSuperseded` is a run with such an entry). If acknowledgements
  answer frames read on their connection, only an acknowledgement of a frame sent before the newer command can sample it
  (`Acknowledgements.SupersededSampleIsOld`).
- Nobody tells an agent that joins late which mode the system is in (`Witnesses.LateJoinerIsNotTold` is a run): it
  agrees with the controller exactly when the number of commands issued and the id it remembers differ in parity
  (`Parity.AgreementIsParity`).
- A CMD_SET_MODE whose payload cannot be read is refused, but its id is remembered, so sending the command again intact
  is refused as a duplicate (`Agents.UnreadableCommandIsRemembered`).
- An error on the connection of agent 0 does not evict it (`Handlers.ConnectionErrorEvicts`, an if-and-only-if).
- The loads of evicted and dropped agents stay in the store and count in the mean for ever
  (`Handlers.LoadsAreLastReports`, `StateStores.LoadsDecide`).
- A restarted controller counts from 0 again, so an agent may refuse a command it has never applied
  (`Witnesses.RestartRefusesCommand` is a run). That happens exactly if the first command it receives has the id it
  remembered, and costs that one command (`Restarts.FilterAfterRestart`); it never leaves the agent on the wrong side of
  mode 1, because parity ties ids to modes (`Restarts.ModeSurvivesRestarts`).

## Model

| member | source | states |
|---|---|---|
| ByteSerializer.U16RoundTrip | include/core/utils/ByteSerializer.hpp:9-16 | reading a written 16-bit value gives it back, whatever follows |
| ByteSerializer.U16Canonical | include/core/utils/ByteSerializer.hpp:9-16 | writing a read 16-bit value gives the bytes back |
| ByteSerializer.U32RoundTrip | include/core/utils/ByteSerializer.hpp:18-28 | reading a written 32-bit value gives it back, whatever follows |
| ByteSerializer.U32Canonical | include/core/utils/ByteSerializer.hpp:18-28 | writing a read 32-bit value gives the bytes back |
| ByteSerializer.U64RoundTrip | include/core/utils/ByteSerializer.hpp:30-37 | reading a written 64-bit value gives it back, whatever follows |
| ByteSerializer.U64Canonical | include/core/utils/ByteSerializer.hpp:30-37 | writing a read 64-bit value gives the bytes back |
| ByteSerializer.U16BigEndian | include/core/utils/ByteSerializer.hpp:9-12 | the more significant byte is written first |
| ByteSerializer.U32BigEndian | include/core/utils/ByteSerializer.hpp:18-23 | the four bytes written, most significant first |
| ByteSerializer.U64BigEndian | include/core/utils/ByteSerializer.hpp:30-33 | the eight bytes written, most significant first |
| ByteSerializer.U32Value | include/core/utils/ByteSerializer.hpp:25-28 | a word read is the number whose base-256 digits are the bytes, in order |
| ByteSerializer.ToFromNat | include/core/utils/ByteSerializer.hpp:18-28 | words and numbers correspond modulo 2^32 |
| Crc32.ShiftByte | src/core/message/BinaryMessageParser.cpp:20-26 | the inner loop is eight shift steps |
| Crc32.ComputeCrc32 | src/core/message/BinaryMessageParser.cpp:16-29 | the bitwise loop computes the checksum the algebra below is about |
| Crc32.UpdateAsBits | src/core/message/BinaryMessageParser.cpp:18-27 | feeding bytes is feeding their bits one at a time, lowest first |
| Crc32.StateInjective | src/core/message/BinaryMessageParser.cpp:18-27 | over any common input, different registers stay different |
| Crc32.BurstChangesChecksum | src/core/message/BinaryMessageParser.cpp:16-29 | a non-empty change confined to 32 consecutive bits of data of any length changes the checksum |
| Crc32.ChecksumAffine | src/core/message/BinaryMessageParser.cpp:16-29 | for equal lengths crc(a^b^c) = crc(a)^crc(b)^crc(c) |
| Crc32.MakeCrcTable | src/core/message/BinaryMessageParser.cpp:16-29 | builds the table of section 8 of RFC 1952, the partner of the bitwise loop |
| Crc32.TableStep | src/core/message/BinaryMessageParser.cpp:19-26 | one table lookup does the work of the eight shifts |
| Crc32.TableDrivenCrc32 | src/core/message/BinaryMessageParser.cpp:16-29 | the table-driven update of section 8 of RFC 1952 computes the same checksum on every byte string |
| Crc32.ChecksumAsRemainders | src/core/message/BinaryMessageParser.cpp:16-29 | the form of section 8.1.1.6.2 of ITU-T V.42: the complement of the sum of the remainders of the message and of 32 ones shifted by its length |
| Crc32.EmptyChecksum | src/core/message/BinaryMessageParser.cpp:16-29 | the checksum of nothing is 0 |
| Crc32.CheckValue | src/core/message/BinaryMessageParser.cpp:16-29 | the checksum of the digits 1 to 9 is the published check value 0xCBF43926 |
| BinaryMessageParser.Serialize | src/core/message/BinaryMessageParser.cpp:31-51 | the buffer built piece by piece is the frame of the message |
| BinaryMessageParser.Deserialize | src/core/message/BinaryMessageParser.cpp:53-92 | all four outcomes, including the size wrapped to 32 bits |
| BinaryMessageParser.FrameLayout | src/core/message/BinaryMessageParser.cpp:31-51 | every field of a frame is at its offset, and the CRC is that of all bytes before it |
| BinaryMessageParser.ParseLocal | src/core/message/BinaryMessageParser.cpp:55-91 | bytes behind a complete frame never affect its parse |
| BinaryMessageParser.RoundTrip | src/core/message/BinaryMessageParser.cpp:31-92 | parsing a printed message, whatever follows, gives it back; the size reported is the true one exactly up to the maximal payload |
| BinaryMessageParser.ParseCanonical | src/core/message/BinaryMessageParser.cpp:53-92 | a parsed message printed again is the very bytes it came from |
| BinaryMessageParser.OutOfBoundsExactly | src/core/message/BinaryMessageParser.cpp:55-77 | input is read out of bounds exactly when its header is there, the announced size wraps, and the input has the wrapped size but not the true one |
| BinaryMessageParser.PrefixParse | src/core/message/BinaryMessageParser.cpp:55-77 | which of the two outcomes a strict prefix of a frame has, for every length of prefix and payload; never a message, never a CRC error |
| BinaryMessageParser.StrictPrefixIncomplete | src/core/message/BinaryMessageParser.cpp:55-64 | every strict prefix of a frame is reported incomplete exactly when the payload has at most 2^32 - 28 bytes |
| BinaryMessageParser.BurstDetected | src/core/message/BinaryMessageParser.cpp:66-81 | a change confined to 32 consecutive bits between length field and CRC field makes the parse fail |
| BinaryMessageParser.FourByteChangeDetected | src/core/message/BinaryMessageParser.cpp:66-81 | so does any change of up to four consecutive bytes there |
| BinaryMessageParser.CrcFieldChangeDetected | src/core/message/BinaryMessageParser.cpp:77-81 | so does any change of the CRC field |
| Framing.WholeFrame | src/core/comm/TcpComm.cpp:47-60 | a completed read parses or is corrupt; it is skipped exactly when the announced payload is too long |
| Framing.DeframeOne | src/core/comm/TcpComm.cpp:18-65 | a frame at the head of the stream is delivered exactly when its payload fits, else skipped |
| Framing.StreamRoundTrip | src/core/comm/TcpComm.cpp:18-65 | the frames of any sendable messages are delivered in order, whatever comes after them |
| Framing.CutAnywhere | src/core/comm/TcpComm.cpp:18-65 | a stream cut after any byte delivers exactly the messages whose frames are complete |
| Framing.CorruptionStops | src/core/comm/TcpComm.cpp:47-63 | a corrupt frame ends the loop: all messages before it are delivered and nothing behind it |
| Framing.HeaderIsAnnounced | src/core/comm/TcpComm.cpp:29-33 | the buffer is made large enough for every frame whose header arrives, unfinished ones included |
| Framing.LargestOfFrames | src/core/comm/TcpComm.cpp:29-33 | the buffer needed for a stream of frames is the size of the largest |
| Framing.DeframeCanonical | src/core/comm/TcpComm.cpp:29-60 | for any stream with in-range lengths, nothing is skipped and printing what was delivered gives a prefix of the stream |
| Framing.ShortStreamsInRange | src/core/comm/TcpComm.cpp:29-33 | every stream of at most 2^32 - 1 bytes has in-range lengths |
| Framing.DeliveriesGrow | src/core/comm/TcpComm.cpp:18-65 | later bytes never revise a delivery |
| TcpComm.TcpComm.constructor | src/core/comm/TcpComm.cpp:8-12 | an idle open connection with an 8192-byte buffer |
| TcpComm.TcpComm.Send | src/core/comm/TcpComm.cpp:67-77 | the message is serialised at the call and its task appended |
| TcpComm.TcpComm.WritePump | src/core/comm/TcpComm.cpp:79-81 | a write of the queue's front is started |
| TcpComm.TcpComm.RunTask | src/core/comm/TcpComm.cpp:70-124 | the three posted tasks: enqueue and start if idle, close, flush; `WritePump.DisconnectCloses` and `WritePump.GracefulShutdown` say what they achieve |
| TcpComm.TcpComm.WriteDone | src/core/comm/TcpComm.cpp:82-101 | completion: dequeue, continue, close when drained, or stop on error |
| TcpComm.TcpComm.Disconnect | src/core/comm/TcpComm.cpp:104-112 | a close task is posted |
| TcpComm.TcpComm.FlushAndDisconnect | src/core/comm/TcpComm.cpp:114-124 | a flush task is posted |
| TcpComm.TcpComm.ReadLoop | src/core/comm/TcpComm.cpp:18-65 | over the reused buffer, whatever it held, the loop delivers and ends as the stream alone says, and the buffer grows exactly to the largest frame announced |
| TcpComm.PeerSeesPrefix | src/core/comm/TcpComm.cpp:18-102 | after any run, a write error included, and any cut, the peer has delivered an in-order prefix of the messages posted |
| WritePump.PumpTheorem | src/core/comm/TcpComm.cpp:67-102 | in every run written + queued + not yet run = posted, in order; never two writes; before an error one is outstanding exactly when the queue is not empty |
| WritePump.NoWriteAfterError | src/core/comm/TcpComm.cpp:67-101 | after a write error no write is ever started again |
| WritePump.DisconnectCloses | src/core/comm/TcpComm.cpp:104-112 | in every run with a disconnect the socket is closed or its close is still posted; once all tasks have run it is closed, for good |
| WritePump.OpenUnlessAsked | src/core/comm/TcpComm.cpp:79-124 | without disconnect and flush the socket stays open, write errors included |
| WritePump.GracefulShutdown | src/core/comm/TcpComm.cpp:79-124 | without errors and abrupt closes, the socket closes only after everything posted before the flush was written, and it does close once all work is done |
| WritePump.FlushIsWritten | src/controller/AgentTcpSession.cpp:55-62 | the frames a session flushes, and all earlier ones, are written before the socket closes |
| Sessions.CheckNext | src/controller/AgentTcpSession.cpp:111-144 | the order in which the loop visits the entries does not matter |
| Sessions.EntriesLiveAlone | src/controller/AgentTcpSession.cpp:106-145 | each entry lives its own timeline |
| Sessions.BackoffTimeline | src/controller/AgentTcpSession.cpp:106-145 | for any check times: at most 5 resends, the k-th at least 2^k - 1 s after tracking, failure only after all 5 and no sooner than 63 s |
| Sessions.TimeoutsKeepSession | src/controller/AgentTcpSession.cpp:106-145 | the pending map stays the set of open commands, on the backoff schedule |
| Sessions.FatesPartition | src/controller/AgentTcpSession.cpp:47-145 | every tracked command has exactly one fate |
| AgentTcpSessions.AgentTcpSession.constructor | src/controller/AgentTcpSession.cpp:12-16 | a new session with its own message |
| AgentTcpSessions.AgentTcpSession.Send | src/controller/AgentTcpSession.cpp:18-22 | a snapshot of the message is posted, if there is a connection |
| AgentTcpSessions.AgentTcpSession.IsHealthy | src/controller/AgentTcpSession.cpp:32-38 | true exactly when the socket is open and the last heartbeat is less than 3000 ms ago: truncating the age to seconds makes no difference |
| AgentTcpSessions.AgentTcpSession.Disconnect | src/controller/AgentTcpSession.cpp:40-45 | close requested, connection released |
| AgentTcpSessions.AgentTcpSession.FlushPendingCommands | src/controller/AgentTcpSession.cpp:47-64 | one transmission of the shared message per entry, then flush-and-disconnect; nothing stays pending |
| AgentTcpSessions.AgentTcpSession.UpdateHeartbeat | src/controller/AgentTcpSession.cpp:66-68 | the heartbeat time is renewed |
| AgentTcpSessions.AgentTcpSession.GetSetModeMsg | src/controller/AgentTcpSession.cpp:70-76 | the shared message is rewritten in place and then carries the command |
| AgentTcpSessions.AgentTcpSession.HandleAck | src/controller/AgentTcpSession.cpp:78-95 | a pending command is settled with one sample and its round-trip time; any other id changes nothing |
| AgentTcpSessions.AgentTcpSession.TrackCommand | src/controller/AgentTcpSession.cpp:97-104 | any message is filed under its present id, replacing what was there; with the session's own message that is the issue step |
| AgentTcpSessions.AgentTcpSession.CheckEntry | src/controller/AgentTcpSession.cpp:112-143 | one round: resend the shared message as it is now, or count a failure and request a close, or wait; the round-trip metrics stay |
| AgentTcpSessions.AgentTcpSession.CheckCommandTimeouts | src/controller/AgentTcpSession.cpp:106-145 | all due entries are resent or fail; the tasks posted are, by ascending id, a send of the one message per resend and a close per failure, and each failure is counted |
| AgentTcpSessions.AgentTcpSession.IssueCommand | src/controller/Controller.cpp:211-213 | rewrite, track and send: the frame posted is that of the new command, header and payload stated field by field |
| Agents.Agent.constructor | include/agent/Agent.hpp:45-59 | mode 0 and the sentinel as duplicate memory |
| Agents.Agent.SendAck | src/agent/Agent.cpp:92-102 | one ACK frame with the command's id and the next ACK counter |
| Agents.Agent.SendNack | src/agent/Agent.cpp:104-114 | one NACK frame with the command's id and the next NACK counter |
| Agents.CountersStep | src/agent/Agent.cpp:187-189 | reply counters go up by one and wrap at 32 bits |
| Agents.Agent.OnMessage | src/agent/Agent.cpp:150-185 | exactly one reply per message, naming its id; mode, result code and duplicate memory change only as the duplicate, payload and type cases say |
| Agents.RefusedWithoutTrace | src/agent/Agent.cpp:159-184 | a message is refused without changing anything exactly if it is no CMD_SET_MODE or a duplicate |
| Agents.UnreadableCommandIsRemembered | src/agent/Agent.cpp:168-180 | a command with a short payload is refused, keeps the mode, sets result code -1, and blocks its own repetition |
| Agents.NewCommandIsObeyed | src/agent/Agent.cpp:168-176 | a new command sets mode, memory and result code, and is acknowledged |
| Inbox.ReplyDecodes | src/controller/Controller.cpp:148-164 | the reply to any message, sent as bytes, reaches the controller as ACK or NACK of that message's id, with the agent's id and counter |
| Inbox.UndecodableExactly | src/core/message/payload/HelloPayload.cpp:20-24 | for every type exactly which payloads do not decode |
| Inbox.HelloDecodes | src/agent/Agent.cpp:80-90 | the agent's HELLO reaches the controller as registration of the agent's own id |
| Inbox.HeartbeatDecodes | src/agent/Agent.cpp:124-131 | the agent's heartbeat reaches the controller as such |
| Inbox.StateDecodes | src/agent/Agent.cpp:134-141 | of the four words of a state message the controller takes the second as the load |
| Agents.CommandSurvivesWire | src/agent/Agent.cpp:159-176 | the agent reacts to a received frame as to the command it carries |
| Agents.NumbersWillDo | src/agent/Agent.cpp:159-176 | reading 32-bit words as numbers changes nothing the agent does |
| Agents.NumbersWillDoAll | src/agent/Agent.cpp:159-176 | nor over any list of commands |
| Agents.BytesRefineCommands | src/agent/Agent.cpp:150-185 | from posted frames over any cut of the byte stream, a write error included, to the agent's memory: that of some first commands |
| Policies.RunPoliciesSnoc | src/controller/Controller.cpp:192-219 | the policy loop, one policy at a time |
| Policies.LastApplicableDecides | src/controller/Controller.cpp:192-219 | the last policy that sets a mode and whose strict comparison holds decides overload_mode_; if there is none nothing happens |
| Policies.CommandsHaveReasons | src/controller/Controller.cpp:192-219 | every command issued carries the mode of such a policy |
| Policies.PoliciesKeepPhase | src/controller/Controller.cpp:192-219 | whatever the policies and the load, commands alternate and overload_mode_ is their parity |
| Policies.BandTick | src/controller/Controller.cpp:192-219 | a proper band issues a command only when the load leaves it on the other side |
| Policies.BandHysteresis | configs/policy.json:3-26 | over any loads, from either mode, the mode is the side last left and the commands count the changes of side |
| Policies.OneCommandPerTick | src/controller/Controller.cpp:192-219 | at most one command per tick for every load exactly when low <= high |
| Hysteresis.OnlyTicksDecide | src/controller/Controller.cpp:192-219 | no event but a tick changes overload_mode_, the policies or the command counter; a tick replaces the policies if they were reloaded and then makes one pass of the policy loop |
| Hysteresis.HysteresisOverRuns | configs/policy.json:3-26 | hysteresis over any run of the system in which a proper band stays loaded, whatever happens between the ticks |
| Registry.StepKeepsWired | src/controller/Controller.cpp:69-122 | every step keeps strong and weak references consistent |
| Registry.Ownership | src/controller/Controller.cpp:69-122 | in every reachable state a context locks to a session exactly when that session is registered under its own id |
| Registry.Isolation | src/controller/Controller.cpp:69-165 | an event on another connection leaves a registered session, its entry and its load report untouched, except a HELLO for its id on a connection without live session |
| Registry.LateHelloTakesOver | src/controller/Controller.cpp:93-115 | the exception happens: a run in which the displaced connection's late HELLO evicts the newer session |
| Handlers.ConnectionErrorEvicts | src/controller/Controller.cpp:69-85 | an error on a registered agent's connection evicts it exactly if its id is not 0: its open commands are abandoned and nothing else changes |
| Handlers.UndecodableIsError | src/controller/Controller.cpp:106-159 | a payload that does not decode is an error of its connection, and an error where no session lives does nothing |
| Handlers.HelloRegisters | src/controller/Controller.cpp:103-127 | HELLO makes a new session bound to the connection and destroys the one the id had; on a connection with a live session it is ignored |
| Handlers.StrangerIsAskedToLeave | src/controller/Controller.cpp:116-120 | anything but HELLO on a connection without live session requests its close and does nothing else |
| Handlers.LoadsAreLastReports | src/controller/Controller.cpp:138-146 | in every run the store holds for each agent the load last reported on a connection locked to it, and nothing else |
| StateStores.StateStore.GetAggregateLoad | src/controller/StateStore.cpp:17-25 | summing in any order gives the mean of all stored loads, 0 if there are none |
| StateStores.AverageCompares | src/controller/StateStore.cpp:17-25 | the mean is on the side of any value that all loads are on |
| StateStores.ReportMovesTotal | src/controller/StateStore.cpp:5-8 | a report replaces the agent's share of the sum |
| StateStores.LoadsDecide | src/controller/Controller.cpp:189-219 | with the mean of the store as load: loads inside the band issue nothing, loads all above or all below decide overload_mode_ |
| CommandOrder.SlotCheckAgrees | src/agent/Agent.cpp:159-168 | on the next frame the one-slot check and the full-history check agree, unless it is the first from this controller and has the id remembered from before |
| CommandOrder.StepKeepsInv | src/controller/Controller.cpp:93-308 | every step keeps frames in order, each session's message last on its wire, and the agents' memories right |
| CommandOrder.CommandsInOrder | src/controller/AgentTcpSession.cpp:70-126 | in every run ids reaching an agent never decrease, equal ids carry equal modes, and the agent applies what a full-history filter keeps, each id once |
| CommandOrder.LatestModeWins | src/agent/Agent.cpp:168-176 | the id an agent remembers is that of the last frame it received and the highest received, and its mode is that frame's; after reading everything on its connection that is the last command issued to the session made for it, registered still or not |
| Parity.OverloadIsParity | src/controller/Controller.cpp:201-208 | across all policies, reloads and loads, without bound, overload_mode_ is true exactly when the number of commands is odd, and even commands, and only they, carry mode 1 |
| Parity.AgentModeIsParity | include/agent/Agent.hpp:46-59 | an agent is in mode 1 exactly when the id it remembers is even, counting the sentinel, without bound |
| Parity.AgreementIsParity | src/controller/Controller.cpp:201-208 | an agent and the controller agree on the mode exactly when the remembered id and the number of commands differ in parity, without bound |
| CommandOrder.SupersededNeverResent | src/controller/AgentTcpSession.cpp:97-126 | frames sent after a newer command, resends of older entries included, carry higher ids than those entries |
| Witnesses.EntryIsSuperseded | src/controller/Controller.cpp:192-215 | a run with two pending ids whose one message carries the second |
| Witnesses.LateJoinerIsNotTold | src/controller/Controller.cpp:105-115 | a run in which a registered agent with nothing left to read is in mode 0 during overload |
| CommandOrder.SentinelCollision | include/agent/Agent.hpp:59 | a fresh agent refuses its first command exactly when its id is the sentinel |
| CommandOrder.TickSendsAllDue | src/controller/Controller.cpp:177-215 | a tick sends, to a session it finds healthy, one frame per entry due at its timeout check and one per command at whose issue the heartbeat is still younger than 3 s |
| Handlers.TickFilesCommands | src/controller/Controller.cpp:208-215 | a tick's command becomes pending with a session, from the time it is tracked and with no retry, exactly if the heartbeat is still younger than 3 s then |
| Handlers.TickChecksEntries | src/controller/AgentTcpSession.cpp:106-145 | for every pending entry of a kept session: unchanged before 2^r s, then retried with the time and count stated, or after 5 retries failed with the times stated |
| Handlers.TickAsksToClose | src/controller/AgentTcpSession.cpp:127-140 | after a tick a registered session's connection is asked to close exactly if it was before, or the session was dropped, or a command of it has failed |
| Handlers.ReplySettlesExactly | src/controller/AgentTcpSession.cpp:78-95 | a reply to a pending command makes it one sample and changes nothing else; a reply to any other id changes nothing |
| Handlers.ClosedSocketIsDropped | src/controller/Controller.cpp:177-187 | once a socket has closed, no tick leaves anybody registered on it |
| CommandOrder.ShutdownFlushesAll | src/controller/Controller.cpp:293-308 | the shutdown flush sends one frame per pending entry and leaves none pending |
| Handlers.ShutdownHappensOnce | src/controller/Controller.cpp:293-308 | shutdown flushes every open command, asks every registered connection to drain, evicts nobody, and does nothing a second time |
| EndToEnd.LatestModeWinsOverBytes | src/agent/Agent.cpp:159-176 | over every run of the system and of the write pump and every cut of the byte stream: the agent's memory is the highest id received with its mode, it refuses exactly the ids seen before, and after the last byte it is in the mode of the last command issued to its session |
| EndToEnd.FreshProcess | include/agent/Agent.hpp:45-59 | the memory of a new agent process is that of an empty history, and the one runs start with |
| EndToEnd.MemorySurvivesReconnect | src/agent/Agent.cpp:159-176 | after a reconnect the agent's memory is the one the next connection starts with, so the theorem applies again |
| EndToEnd.RepliesNameFrames | src/agent/Agent.cpp:92-114 | over bytes both ways: the agent's i-th answer acknowledges the id of the i-th frame put on its connection, or refuses it if seen before, and is honest |
| Restarts.ModeSurvivesRestarts | src/agent/Agent.cpp:159-176 | over any number of controller lifetimes an agent is in mode 1 exactly when the id it remembers is even, and when the last command received says so; a command about to be refused agrees with the mode |
| Restarts.FilterAfterRestart | src/agent/Agent.cpp:159-180 | whatever the agent remembered, it applies what a full history would exactly if the first command received has another id, else all but that one; and exactly when its mode is the one issued under its id |
| Witnesses.RestartRefusesCommand | src/agent/Agent.cpp:159-166 | two lifetimes in which the second controller's first command is refused though it was never applied |
| Accounting.CommandAccounting | src/controller/AgentTcpSession.cpp:47-145 | in every run tracked = samples + failures + pending + flushed + abandoned, each command counted once |
| Accounting.FatesAreFinal | src/controller/AgentTcpSession.cpp:78-136 | a settled command is never settled again, however many ACKs and NACKs arrive |
| Acknowledgements.AcknowledgedMeansApplied | src/controller/AgentTcpSession.cpp:78-95 | if ACKs and NACKs answer frames read on their connection, every sampled command was read there and applied, with the mode it was issued with |
| Acknowledgements.SupersededSampleIsOld | src/controller/AgentTcpSession.cpp:78-126 | with honest replies a superseded command is sampled only if an agent read a frame with its id, all of which were sent before the newer command |
| Quiescence.TrackedWasSent | src/controller/Controller.cpp:209-215 | every command a session ever tracked was sent under its own id on its connection |
| Quiescence.AnsweredIsSettled | src/controller/AgentTcpSession.cpp:78-95 | a command answered on its connection after it was sent is not pending in any continuation, whatever became of its session |
| Quiescence.NothingPendingOnceAnswered | src/controller/AgentTcpSession.cpp:78-104 | once every frame on a connection was answered, no session made for it has anything pending |
| Timeliness.SilentSessionsAreDropped | src/controller/Controller.cpp:177-187 | if the last tick began at most D ago, a registered session was heard of less than 3 s + D ago |
| Timeliness.TickKeepsExactlyTheHealthy | src/controller/Controller.cpp:177-187 | a tick keeps a session exactly when its socket is open and its heartbeat younger than 3 s when the session is looked at, and asks for the connection of a dropped one to be closed |
| Timeliness.NeverDropped | src/controller/AgentTcpSession.cpp:32-38 | a session on an open socket whose messages decode, whose id no connection without a live session claims, and that every tick finds silent for less than 3 s, stays registered through any run |
| Timeliness.BackoffDeadline | src/controller/AgentTcpSession.cpp:106-145 | if every tick ends at most D after the one before began, no entry of a registered session is pending after 63 s + 6 D |
| Timeliness.BackoffFloor | src/controller/AgentTcpSession.cpp:109-136 | in every reachable state retry counts stay in 0..5, on schedule, and every counted failure is at least 63 s old |
| ControllerLoops.NextRound | src/controller/Controller.cpp:177-187 | a loop over the sessions may visit them in any order |
| ControllerLoops.CheckPass | src/controller/Controller.cpp:177-187 | a full pass of the health loop is a tick that issues nothing |
| ControllerLoops.IssuePass | src/controller/Controller.cpp:208-215 | a full pass of the inner policy loop adds one command to the tick |
| ControllerLoops.FlushPass | src/controller/Controller.cpp:305-307 | a full pass of the shutdown loop is the shutdown step |
| Controllers.Controller.constructor | src/controller/Controller.cpp:18-34 | the state of a controller just started, with the policies loaded, whatever the agents remember |
| Controllers.Controller.OnConnectionError | src/controller/Controller.cpp:69-85 | takes the error step, with the exception for agent id 0 |
| Controllers.Controller.RegisterAgent | src/controller/Controller.cpp:105-115 | takes the registration step, displacing any session of the same id |
| Controllers.Controller.OnMessage | src/controller/Controller.cpp:93-165 | takes the message step in all cases: undecodable payloads, and the close requested when a connection does not start with HELLO |
| Controllers.Controller.CheckSessions | src/controller/Controller.cpp:177-187 | the health loop does a full pass, close requests included |
| Controllers.Controller.GetNextId | include/controller/Controller.hpp:58-60 | the counter is returned and incremented modulo 2^32 |
| Controllers.Controller.IssueToAll | src/controller/Controller.cpp:209-215 | the inner policy loop does a full pass |
| Controllers.Controller.ApplyPolicies | src/controller/Controller.cpp:192-219 | loops over policies and sessions, in the source's nesting, complete the two loops of a tick |
| Controllers.Controller.HealthCheck | src/controller/Controller.cpp:172-223 | the whole handler takes the tick step, with a clock reading of its own wherever the source reads the clock |
| Controllers.Controller.ShutdownController | src/controller/Controller.cpp:293-308 | takes the shutdown step, once |
| MessagePools.AllocatesPeak | include/core/pool/MessagePool.hpp:18-51 | over any requests the number of objects allocated is the peak number in use |
| MessagePools.MessagePool.AcquireMessage | include/core/pool/MessagePool.hpp:18-33 | a recycled or new object that is never one in use, freshly constructed; pooled and live stay disjoint and complete |
| MessagePools.MessagePool.ReleaseMessage | include/core/pool/MessagePool.hpp:48-51 | the object returns to the stack |

## Left out

- Sockets, acceptors, resolvers, timers and signals: they are the events of `System.dfy` and `WritePump.dfy`, free to happen at any time.
- Time within a handler other than the tick: each happens at one instant.
- Controllers.Controller: sessions and connections are table entries rather than heap references; the reference structure inside a session is modelled in `AgentTcpSession.dfy`, and weak references by membership in the registry.
- AgentTcpSessions.AgentTcpSession.CheckCommandTimeouts: stated for sessions whose entries all refer to the session's own message, the only one the controller ever tracks.
- Agents.Agent.SendNack: the reason text is an arbitrary byte string.
- The `active_connections` gauge: both the error handler and the health check decrement it for one connection, so it counts nothing.
- `broadcastCommand` and `sendCommandTo`: they take ids chosen by the caller and track nothing.
- Policy files: a reload replaces the policy list by any list.
- Floating point: loads are real numbers, and how an IEEE 754 single becomes one is a parameter of `Inbox.Decode`. In runs the load of a tick is any real number; `StateStores.LoadsDecide` is about the mean of the store.
- Total round-trip time in the system model: it is in the session object's contract only.
- The other fields of the state reports, when agents report, START and STOP commands, metrics text, logging, and the agent's bounded reconnect counter: they would only add easy members.
