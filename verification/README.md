# UDSLib in Dafny: transport, core and stateful services

UDSLib is a C stack for Unified Diagnostic Services (ISO 14229-1) with its own ISO-TP transport
(ISO 15765-2). This project models the parts of it that carry state and proves what they promise over
whole runs.

**How it is organised.** Each component has a value for its state, functions that say what one call does to
that value, and a class over real fields and buffers whose methods (same branches, loops and buffers as the
C code) are proved to compute exactly those functions. The theorems are about runs of the functions.

| file | what it holds |
|---|---|
| `IsoTp.dfy` | frame layouts, the transport state machine, class `IsoTpLink` |
| `Segmentation.dfy` | the frames of a message as a closed formula; reassembly; loss |
| `Reassembly.dfy` | a reference reassembler that the engine refines over any run; peers with other frame sizes; loss in streams, exactly |
| `Transmission.dfy` | runs of a sender: transfer invariant, what ends a transmission, termination, round trip |
| `TwoInstances.dfy`, `StandardReceiver.dfy` | this sender against this receiver, and against one that follows the standard: exactly which messages get through |
| `Bounds.dfy` | which buffers keep every reception in bounds |
| `FlowControl.dfy` | block size and separation time over any run; one tick, exactly |
| `WireFormat.dfy` | every frame of every run, byte by byte |
| `Core.dfy`, `CoreEngine.dfy` | dispatcher, pending machine, session timer, session control, security access, ECU reset, client mode; class `UdsServer`, which sends through an `IsoTpLink` |
| `Gates.dfy`, `Accounting.dfy`, `ClientMode.dfy`, `PendingLimit.dfy`, `Unlocking.dfy`, `BruteForce.dfy`, `Suppression.dfy`, `SessionGates.dfy`, `Restart.dfy` | theorems about the core |
| `Answers.dfy` | what a tester gets from the handlers of the core, and what another stack as client makes of it |
| `Flash.dfy`, `FlashProtocol.dfy` | RequestDownload and TransferData; a download over lossy channels |
| `Periodic.dfy`, `PeriodicRate.dfy` | the eight-slot periodic table and scheduler; transmission rate |
| `DataById.dfy` | multi-identifier read, write, write-then-read |
| `Addressing.dfy`, `Memory.dfy` | address/size fields; memory read and write |
| `Wiring.dfy`, `Node.dfy`, `NodeEngine.dfy` | transport and core wired together; layer refinement; end-to-end exchange; class `Stack`, in which the core is called, and sends, from inside a reception |
| `Bytes.dfy`, `Replies.dfy` | byte strings, casts, negative responses |

Conventions. The verdict of the CAN driver on a frame (`canSend`, 0 accepts), the clock (one `now` per API
call) and the results of application callbacks are arguments. The functions describe a reception as
returning the SDU it completes, which the next step consumes; class `Stack` makes the nested calls of the C
code (receive callback, `uds_input_sdu`, send function, transport again) and is proved to come to the same.
32-bit time differences wrap; casts to `uint8_t`/`uint16_t` are written as remainders. API calls are atomic
steps.

## Where the code does less than it promises

Each of these is a theorem, with the exact condition.

* Two instances of the engine talking to each other complete a multi-frame message if and only if it fits
  the one block the receiver grants, counted from the sender's left-over block counter: the receiver
  answers only a first frame, and the counter is not reset between messages. Fresh instances: 62 bytes on
  classic CAN, 566 on CAN-FD (`TwoInstances.DeliversIffFitsGrant`, `TwoInstances.FreshInstancesLimit`).
* The transport documentation speaks of 4095-byte SDUs; the code refuses to send more than 1024
  (`Transmission.RoundTrip` states the exact range).
* The engine cannot receive and send at once. A transmission under way survives an event if and only if it
  is neither an opening frame coming in, be it a suppressed tester present, nor the sending of another
  multi-frame message (`Transmission.TransmissionSurvivesIff`); what is lost is lost without notice
  (`Transmission.AbandonedForGood`). A reception stays in step if and only if the event is none of these (its own
  opening once more excepted) nor a consecutive frame (`Reassembly.ReceptionSurvivesIff`); so a single frame that the sender puts
  between the frames of a message replaces that message at the receiver (`Segmentation.SingleFrameInterrupts`).
* A lossy stream is received safely if and only if nothing splices: an opened but incomplete message, and
  later ones whose opening frames are lost, never have enough consecutive frames in sequence to make up its
  length (`Reassembly.StreamSafeIff`). What is delivered otherwise is the beginning of one message, the end of
  another, and that one's padding where it is too short (`Reassembly.SplicesIff`).
* The buffer is compared with the announced length only, and a first frame may carry more than it announces;
  the number of missing bytes then wraps around. The copies of every reception stay within the buffer if and
  only if it holds fewer than 8 bytes or at least 125 (`Bounds.ReceptionInsideIff`).
* A receiver that grants a new block when one is full, as the standard has it, gets a message only if no grant
  reaches the sender before it has noticed the end of the block, and the sender's left-over block counter is 0
  or the message fits the first block. If every grant comes while the sender waits, that is enough; if every
  grant comes at once, only messages that fit the first block get through
  (`StandardReceiver.StandardReceiverIff`).
* A message whose first frame the driver refuses is reported as failed but not given up: a later clear to send
  makes the engine send its consecutive frames (`Transmission.RefusedOpening`).
* The replay option answers a repeated last block if and only if its counter is not 0
  (`Flash.ReplayAnsweredIff`), so a lost acknowledgement of every 256th block cannot be recovered
  (`FlashProtocol.AdvancesIffNotStuck`).
* A client request of the stack replaces the SID remembered for the request that pends. Books balance in a
  step if and only if it is neither a busy refusal for the SID remembered last, which drops the pending
  request, nor the application's report of its failure while another SID is remembered, which answers it and
  leaves it pending (`Accounting.StepBalances`). What is sent for a pending request carries its own SID, and
  the report ends it, if and only if the last client request since it began, if any, had that SID
  (`Accounting.UnderOwnSidIff`, `Accounting.RepetitionForgetsIff`).
* A response this stack awaits as a client reaches its callback if and only if, when it arrives, no request is
  pending on the server side, no later client request was sent, no earlier message was taken as the response,
  and no request of another service was the last to pend since (`ClientMode.ResponseHeardIff`,
  `ClientMode.OwnResponseHeardIff`); otherwise it is refused as busy or taken as a request.
* A client that is told to wait takes the 0x78 for the response; the real one, when it comes, is taken as a
  request (`Answers.PendingAnswerConsumes`).
* The SID of a finished asynchronous request stays remembered, and one later message that looks like the
  response to it is swallowed (`ClientMode.FinishedSidSwallows`).
* The suppress flag outlives its request when that is refused after its sub-function was accepted, pends, or
  drops its response itself; a later request without sub-function is then silenced if and only if the run has
  left the flag (`Suppression.FlagOverRun`, `Suppression.LeftOverSilences`, `Suppression.ResetLeavesFlag`).
* A session timeout is not saved: a restart brings back session and level of the moment if and only if no
  session has timed out since they were last saved, and otherwise a session that had ended, unlocked as it was
  (`Restart.RestartRestoresIff`, `Restart.TimeoutUndone`).
* The session masks of services and of data identifiers number the programming and extended sessions
  differently (`SessionGates.GatesAgreeIff`).
* Stopping periodic identifier 0 keeps the counter exact if and only if no slot is free
  (`Periodic.PeriodicTable.Stop`). Otherwise, with up to three identifiers every new one is refused, with four
  nothing is transmitted any more, and with five to seven the counter falls short, so that a full table
  acknowledges identifiers without registering them (`Periodic.StopOfZero`, `Periodic.FullTableForgets`).
* A memory write that passes the length check hands over exactly the announced number of bytes if and only
  if it announces fewer than 2^16 (`Memory.ExactIffBelow64K`).

Smaller disagreements, where the model follows the code: a comment gives the slow periodic rate as 2000 ms,
the constant is 1000 ms; the changelog gives the enforced minimum P2/P2* as 5/100 ms, the code uses 20/1000
ms; the timing guide tells a handler to set the pending flag itself, but the pending SID is recorded only
when it returns `UDS_PENDING`.

## Model

| member | source | states |
|---|---|---|
| IsoTp.DlcAlign | src/transport/uds_tp_isotp.c:49-59 | the smallest payload length CAN-FD can express that holds the bytes |
| IsoTp.Send | src/transport/uds_tp_isotp.c:161-173 | every send, accepted or not, keeps the context consistent and leaves the reassembly buffer alone |
| IsoTp.Tick | src/transport/uds_tp_isotp.c:176-237 | so does every tick |
| IsoTp.Receive | src/transport/uds_tp_isotp.c:239-378 | every frame keeps the context consistent; when an SDU goes up, the engine is already idle |
| IsoTp.IsoTpLink.constructor | src/transport/uds_tp_isotp.c:64-74 | initial context: classic CAN, block size 8, no separation time, idle |
| IsoTp.IsoTpLink.SetFd | src/transport/uds_tp_isotp.c:76-80 | switches the frame format and nothing else |
| Bounds.ReceptionInsideIff | src/transport/uds_tp_isotp.c:262-332 | over every run of any frames and calls, for which buffer sizes all copies of all receptions stay in bounds |
| Bounds.SafeRun | src/transport/uds_tp_isotp.c:317-326 | from any counters a reception can have, a buffer of those sizes is never left |
| Bounds.CountersFollowEngine | src/transport/uds_tp_isotp.c:262-332 | the counters of that result are the engine's wherever the engine is described |
| IsoTp.IsoTpLink.HandOver | src/transport/uds_tp_isotp.c:37-43 | a frame reaches the bus exactly when the driver accepts it |
| IsoTp.IsoTpLink.SendSingle | src/transport/uds_tp_isotp.c:86-107 | the buffer filled byte by byte is the closed single-frame layout, classic or CAN-FD |
| IsoTp.IsoTpLink.StartMulti | src/transport/uds_tp_isotp.c:112-158 | first frame and new context of a multi-frame send, with the refusal above 1024 bytes and the driver failure |
| IsoTp.IsoTpLink.Transmit | src/transport/uds_tp_isotp.c:161-173 | the choice between single and multi frame |
| IsoTp.IsoTpLink.SendConsecutive | src/transport/uds_tp_isotp.c:211-235 | the next consecutive frame and the context after it, untouched when the driver refuses |
| IsoTp.IsoTpLink.Process | src/transport/uds_tp_isotp.c:176-237 | one tick: separation time, block end, consecutive frame |
| IsoTp.IsoTpLink.OnFirst | src/transport/uds_tp_isotp.c:262-302 | reception of a first frame, its flow control answer, and the refusal when the buffer is too small |
| IsoTp.IsoTpLink.Store | src/transport/uds_tp_isotp.c:315-326 | the data of a consecutive frame in turn goes to the end of what has arrived, padding left out |
| IsoTp.IsoTpLink.OnFlowControl | src/transport/uds_tp_isotp.c:334-346 | only a clear to send for a waiting sender has an effect |
| WireFormat.SingleOnWire | src/transport/uds_tp_isotp.c:86-107 | the bytes of a single frame: length, data, padding, and the least length CAN-FD can express |
| WireFormat.FirstOnWire | src/transport/uds_tp_isotp.c:125-150 | the bytes of a first frame |
| WireFormat.ConsecutiveOnWire | src/transport/uds_tp_isotp.c:211-226 | the bytes of a consecutive frame, as short as CAN-FD can express, 8 on classic CAN |
| WireFormat.FlowControlOnWire | src/transport/uds_tp_isotp.c:296-301 | the bytes of a flow control frame |
| WireFormat.SendOnWire | src/transport/uds_tp_isotp.c:161-173 | which frame one send hands over, up to 7 or 62, up to 1024 and above, and what it returns |
| WireFormat.EveryFrameLaid | src/transport/uds_tp_isotp.c:86-302 | over every run, every frame has an expressible length, the least that holds it where it may vary, and is zero after its data |
| Segmentation.ReassembleSegments | src/transport/uds_tp_isotp.c:239-332 | the frames of a message, received in order in any state, deliver exactly that message once, padding stripped, and cause exactly one flow control |
| Segmentation.LossSafety | src/transport/uds_tp_isotp.c:304-332 | for any loss pattern within a message: all of it is delivered if nothing is lost, nothing if anything is |
| Segmentation.StreamLossSafety | src/transport/uds_tp_isotp.c:239-332 | over a lossy stream in which no opening frame is lost during an unfinished reception, exactly the messages that came through whole are delivered, in order |
| Segmentation.SingleFrameInterrupts | src/transport/uds_tp_isotp.c:239-242 | a single frame between the frames of a message, empty or not, replaces it at the receiver |
| Reassembly.EngineRefinesAssembly | src/transport/uds_tp_isotp.c:239-332 | receive invariant over any run of frames, ticks and sends: while receiving, the buffer holds in order exactly the data of the frames accepted for the message, and what goes up is what a reference reassembler completes |
| Reassembly.AnyPeerDelivers | src/transport/uds_tp_isotp.c:262-332 | a message sent in consecutive frames of any sizes, with anything harmless in between, is delivered once, whatever the receiver's state |
| Reassembly.ReceptionSurvivesIff | src/transport/uds_tp_isotp.c:239-332 | exactly the events that leave a receiver in step |
| Reassembly.CfsComplete | src/transport/uds_tp_isotp.c:304-332 | consecutive frames of any origin complete a message exactly when enough of them are in sequence, with what they carry |
| Reassembly.EnoughIsLeast | src/transport/uds_tp_isotp.c:310-328 | the count at which they do is the least that supplies the missing bytes in sequence, if any does |
| Reassembly.SpanOutcome | src/transport/uds_tp_isotp.c:304-332 | an opened message with the consecutive frames after it, its own and others', delivers what it should except when it splices |
| Reassembly.StreamSafeIff | src/transport/uds_tp_isotp.c:239-332 | a lossy stream delivers exactly the whole messages, in order, if and only if nothing splices, and one more message for each splice |
| Reassembly.SplicesIff | src/transport/uds_tp_isotp.c:304-332 | the beginning of one message and the end of another, of any lengths: when they make a message and which |
| Transmission.TransferInvariant | src/transport/uds_tp_isotp.c:112-237 | over any run of ticks, flow controls and short sends the frames emitted are the next ones of the message, in order, from the snapshot, and the sender is idle exactly when all are out |
| Transmission.TransmissionSurvivesIff | src/transport/uds_tp_isotp.c:239-302 | exactly the events that leave a transmission under way where it is or move it to its next frame |
| Transmission.AbandonedForGood | src/transport/uds_tp_isotp.c:241-266 | after any other opening frame nothing more of the message is ever sent |
| Transmission.FairRunExists | src/transport/uds_tp_isotp.c:176-237 | fair runs of every length exist from every state, with any grants |
| Transmission.Terminates | src/transport/uds_tp_isotp.c:176-237 | under a fair environment, with any block sizes and separation times and any stale block counter, all frames are out within three steps a frame |
| Transmission.RefusedOpening | src/transport/uds_tp_isotp.c:118-155 | when the driver refuses the first frame: nothing is sent without a clear to send, and after one all consecutive frames are, which an idle receiver ignores |
| Transmission.SendsSegments | src/transport/uds_tp_isotp.c:161-237 | what a fair run puts on the bus is the closed formula for the message |
| Transmission.RoundTrip | src/transport/uds_tp_isotp.c:86-332 | every SDU sent in a fair environment and received in any state is delivered exactly once, except empty ones, ones over 1024 bytes and ones larger than the receive buffer |
| TwoInstances.ShortGrantStalls | src/transport/uds_tp_isotp.c:204-209 | with a block too short for the rest, no schedule of ticks delivers the message |
| TwoInstances.GrantSuffices | src/transport/uds_tp_isotp.c:204-235 | with a block long enough, one fair tick a frame delivers it |
| TwoInstances.DeliversIffFitsGrant | src/transport/uds_tp_isotp.c:296-332 | two instances complete a multi-frame message exactly when it fits the single grant |
| TwoInstances.FreshInstancesLimit | src/transport/uds_tp_isotp.c:64-74 | the limit for freshly initialised instances: 62 bytes classic, 566 bytes CAN-FD |
| StandardReceiver.StandardReceiverIff | src/transport/uds_tp_isotp.c:204-235 | exactly which messages get through to a receiver that grants every block: under any schedule, under late and under prompt grants |
| StandardReceiver.GoingStep | src/transport/uds_tp_isotp.c:334-346 | one move of such an exchange: it goes on, is over, or is stalled for good; an early grant stalls it |
| StandardReceiver.LateDelivers | src/transport/uds_tp_isotp.c:204-235 | grants that come in time and counters in step deliver the message within three moves a frame |
| FlowControl.FlowControlSafety | src/transport/uds_tp_isotp.c:185-235 | in every run of any events, consecutive frames are sent only under a grant for the message begun last, at most the block size per grant, and the granted separation time apart |
| FlowControl.FlowControlFromIdle | src/transport/uds_tp_isotp.c:185-235 | the same from any idle engine, whatever its counter and timer hold |
| FlowControl.BlockSizeRespected | src/transport/uds_tp_isotp.c:204-209 | between a grant and the next at most block-size consecutive frames, read off the trace |
| FlowControl.SeparationRespected | src/transport/uds_tp_isotp.c:185-202 | two successive consecutive frames under a grant are as many milliseconds apart as its byte 2 asks, modulo 2^32: 0x00 to 0x7F of them, at least 1 for 0xF1 to 0xF9 |
| FlowControl.TickSendsIff | src/transport/uds_tp_isotp.c:176-237 | one tick sends a consecutive frame exactly when the engine is sending, the driver accepts, the block is not full and that time is over, and starts to wait exactly when the block is full then |
| FlowControl.GrantBytes | src/transport/uds_tp_isotp.c:334-346 | which frames are grants, and that bytes 1 and 2 become block size and separation time |
| FlowControl.GrantAfterOpening | src/transport/uds_tp_isotp.c:123 | between the beginning of a message and any later consecutive frame lies a grant |
| Core.Find | src/core/uds_core.c:115-134 | the first entry with the SID, none only if no entry has it |
| Core.ServiceFound | src/core/uds_core.c:115-134 | the entry found serves that SID and its handler's minimum length is guaranteed |
| Core.ServiceLookup | src/core/uds_core.c:115-134 | by index: the first user entry with the SID, failing that the first built-in one, none only if neither table has it |
| CoreEngine.UdsServer.constructor | src/core/uds_core.c:240-284 | initial context, P2 defaults and minima, state loaded from non-volatile memory |
| CoreEngine.UdsServer.Respond | src/core/uds_core.c:473-493 | positive response, sent through the transport or withheld once when the suppress flag is set; too long a response has no effect |
| CoreEngine.UdsServer.Refuse | src/core/uds_core.c:495-517 | negative response; all but 0x78 for the pending SID clear the pending flag |
| CoreEngine.UdsServer.FindEntry | src/core/uds_core.c:115-134 | the lookup loops: user services override built-in ones |
| CoreEngine.UdsServer.HandleRequest | src/core/uds_core.c:182-235 | dispatch of a request |
| CoreEngine.UdsServer.ExecuteHandler | src/core/uds_core.c:168-180 | handler call, with the pending outcome |
| CoreEngine.UdsServer.InputSdu | src/core/uds_core.c:406-471 | one incoming SDU: busy, response to a client request, or dispatch |
| CoreEngine.UdsServer.TakeAnswer | src/core/uds_core.c:441-458 | recognises the response to a request sent as a client |
| CoreEngine.UdsServer.Tick | src/core/uds_core.c:287-331 | session timer, response timer, and whether the scheduler is reached |
| CoreEngine.UdsServer.SendAsClient | src/core/uds_core.c:370-404 | client request, refused when it does not fit the buffer, otherwise with the transport's result |
| Core.SessionReplyTimings | src/services/uds_service_session.c:35-48 | the timing record reads back as the configured P2 and as P2* to the next lower ten milliseconds |
| CoreEngine.UdsServer.HandleSessionControl | src/services/uds_service_session.c:13-59 | session change, relock, timing record, saving |
| CoreEngine.UdsServer.HandleTesterPresent | src/services/uds_service_session.c:61-71 | tester present |
| CoreEngine.UdsServer.HandleSecurityAccess | src/services/uds_service_security.c:13-90 | delay check, seed request, key check |
| CoreEngine.UdsServer.CheckKey | src/services/uds_service_security.c:54-88 | unlock and saving on success; attempt counter and delay on failure |
| CoreEngine.UdsServer.HandleEcuReset | src/services/uds_service_maintenance.c:15-46 | ECU reset, which leaves the suppress flag set when asked for silence |
| Gates.MasksMean | src/core/uds_core.c:136-166 | the bits of session and sub-function masks |
| Gates.PriorityRespected | src/core/uds_core.c:192-234 | at the first user entry with the SID, failing that the first built-in one: a request is refused with the code of the first check it fails in the documented order, inertly, and reaches its handler only past all of them |
| Answers.FreshStack | src/core/uds_core.c:240-284 | the times, minima, session and level of a fresh stack |
| Answers.SessionAnswer | src/services/uds_service_session.c:13-59 | which sessions are entered, what happens to the level, and a response whose timings read back |
| Answers.ResetAnswer | src/services/uds_service_maintenance.c:15-46 | the answer to an ECU reset |
| Answers.TesterAnswer | src/services/uds_service_session.c:61-71 | the answer to tester present |
| Answers.DelayRefuses | src/services/uds_service_security.c:19-28 | security access is refused exactly while the delay runs, and then served as if there had been none |
| Answers.SeedReachesTester | src/services/uds_service_security.c:33-52 | the seed of the callback reaches the tester unchanged, or its code does |
| Answers.KeyAnswer | src/services/uds_service_security.c:53-89 | level, counter, delay and code after a right and a wrong key |
| Answers.RequestAnswers | src/core/uds_core.c:168-235 | whatever a stack sends while it takes in a request answers that request's SID, a refusal with its code |
| Answers.BusySilentIff | src/core/uds_core.c:425-439 | what is passed over in silence while a request is pending |
| Answers.MatchesMeans | src/core/uds_core.c:441-447 | which messages a waiting client takes for the response: the opening SID with its bit 6 set, or 0x7F and the SID |
| Answers.HeardByClient | src/core/uds_core.c:441-458 | two stacks: whatever the server sends while it takes in a request is heard by the client that sent it |
| Answers.PendingAnswerConsumes | src/core/uds_core.c:441-458 | a client takes 0x78 for the response and the real response for a request |
| Accounting.StepBalances | src/core/uds_core.c:406-517 | what one step adds to the answers owed: the books balance exactly when it neither drops a pending request nor lets one linger |
| Accounting.ResponseConservation | src/core/uds_core.c:168-235 | over a run: requests asked = answered + pending + dropped - those answered while they linger |
| Accounting.RememberedOverRun | src/core/uds_core.c:389-390 | over any run, the SID the core takes a pending request to have: that of the last client request since, or its own |
| Accounting.UnderOwnSidIff | src/core/uds_core.c:312-331 | after any run, what is sent for a pending request carries its SID, and a report of its failure ends it, exactly when those two agree |
| Accounting.RepetitionForgetsIff | src/core/uds_core.c:425-439 | after any run, which busy refusals make the core forget the pending request, and when those are its repetitions |
| Accounting.BusyRefusal | src/core/uds_core.c:425-439 | a busy refusal changes only the time of the last message, unless it is for the SID remembered last: then it also forgets the pending request |
| ClientMode.SlotOverRun | src/core/uds_core.c:370-458 | over any run, which SID is remembered and whose callback is registered, and that a callback lasts exactly until a later request or a message taken as the response |
| ClientMode.ResponseHeardIff | src/core/uds_core.c:425-471 | after any run a message reaches the callback of a client request exactly under the four conditions, once, and otherwise is refused, taken as a request or swallowed |
| ClientMode.OwnResponseHeardIff | src/core/uds_core.c:441-458 | the same for the response to the request itself, when the SIDs are those of requests |
| ClientMode.FinishedSidSwallows | src/core/uds_core.c:441-458 | after an asynchronous completion, and any run in between, a message that matches the remembered SID is dropped without an answer |
| PendingLimit.BoundedPending | src/core/uds_core.c:312-331 | one 0x78 for each tick at least P2* after the last, at most the limit, then exactly one 0x22 that ends the request, each under the SID remembered then; client requests and other requests may come in between |
| PendingLimit.UnlimitedPending | src/core/uds_core.c:312-331 | with limit 0 one 0x78 per expiry and no end |
| PendingLimit.PendingRequestEnds | src/core/uds_core.c:168-180 | from the handler's UDS_PENDING on: one immediate 0x78 under its own SID, then what is told at each expiry, and the end at expiry limit + 1 |
| PendingLimit.TickTellsIff | src/core/uds_core.c:313-327 | a tick sends 0x78 or the final 0x22 exactly when P2* has passed since the last, P2 before the first |
| PendingLimit.ClockEnds | src/core/uds_core.c:312-331 | a clock that steps by at least P2* ends a request with its limit + 1 st tick, after exactly limit repetitions |
| Unlocking.LevelIsJustified | src/services/uds_service_session.c:24-32 | over every run session and level are exactly what the key checks, session changes and timeouts say |
| Unlocking.UnlockedWithinEpoch | src/services/uds_service_security.c:55-60 | a non-zero level was granted by a key check for that level in the current session epoch, or loaded at initialisation with no epoch ended since |
| Unlocking.MessageOverRun | src/core/uds_core.c:420-423 | over any run the session timer measures from the last message that arrived, however it was taken |
| Unlocking.SessionIsFresh | src/core/uds_core.c:303-310 | after any run and a tick the session is other than the default one exactly when one was entered and the last message is at most 5000 ms old; a timeout relocks |
| BruteForce.FailuresTakeTime | src/services/uds_service_security.c:19-28 | the time between any two failed key checks of a run is at least one delay for each failure between them that reached the maximum, for any number of failures, counter wrap included |
| BruteForce.BoundBelow256 | src/services/uds_service_security.c:72-83 | for fewer than 256 failures, (f - max) * delay since failure number max |
| Suppression.WithheldExactly | src/core/uds_core.c:201-216 | a positive response is withheld exactly when its request asks for it or, for a service without sub-function, a flag is left over |
| Suppression.DispatchHonours | src/core/uds_core.c:182-235 | whatever handler a request gets to and whatever becomes of it: the response is withheld exactly when the flag is set for it, and the flag survives every end but a positive one |
| Suppression.FlagOverRun | src/core/uds_core.c:201-216 | the flag after any run as a function of the run |
| Suppression.LeftOverSilences | src/core/uds_core.c:484-488 | after any run a service without sub-function is silenced exactly when the run has left the flag |
| Suppression.ResetLeavesFlag | src/services/uds_service_maintenance.c:30-41 | a suppressed ECU reset silences the next request of a service without sub-function |
| Restart.StoredOverRun | src/core/uds_core.c:303-310 | over any run, when what is saved agrees with session and level, and how it differs otherwise |
| Restart.RestartRestoresIff | src/core/uds_core.c:273-281 | a restart restores the moment's session and level exactly when no timeout has happened since the last save |
| Restart.TimeoutUndone | src/core/uds_core.c:303-310 | a restart after a timeout brings back the session and level that had ended |
| SessionGates.GatesAgreeIff | src/core/uds_core.c:136-156 | the session tests of services and identifiers agree in a session exactly when it is the default one or the mask treats the other two alike |
| SessionGates.ExtendedMaskMoves | src/services/uds_service_data.c:27-33 | an identifier restricted to the extended session is readable in the programming session and not in the extended one |
| Flash.FlashService.RequestDownload | src/services/uds_service_flash.c:47-91 | refusals in order, the parsed address and size handed over, the counter restarted exactly on acceptance |
| Flash.FlashService.TransferData | src/services/uds_service_flash.c:93-137 | one block: accepted only with the successor of the last counter, replayed or refused otherwise |
| Flash.ReplayAnsweredIff | src/services/uds_service_flash.c:106-124 | a repeated last block is acknowledged without being written again exactly when replay is on and its counter is not 0 |
| Flash.TransferAnswer | src/services/uds_service_flash.c:93-137 | when a block is handed over, what is remembered, and the code of each refusal |
| FlashProtocol.StepKeepsInv | src/services/uds_service_flash.c:93-137 | the protocol invariant over every client, server and loss step |
| FlashProtocol.ExactlyOnceInOrder | src/services/uds_service_flash.c:80-137 | over lossy FIFO channels the blocks written are always a prefix of the image with counters k mod 256, and every acknowledged block is among them |
| FlashProtocol.StuckForever | src/services/uds_service_flash.c:106-124 | a client whose written block can no longer be acknowledged never advances |
| FlashProtocol.AdvancesIffNotStuck | src/services/uds_service_flash.c:106-124 | otherwise some continuation advances it |
| Periodic.InsertAllMeaning | src/services/uds_service_data.c:178-204 | what starting a list of identifiers does to each identifier; capacity kept; only a full table refuses |
| Periodic.RemoveAllKeeps | src/services/uds_service_data.c:158-169 | stopping removes exactly the listed identifiers |
| Periodic.PeriodicTable.Find | src/services/uds_service_data.c:182-188 | the slot search finds an identifier exactly when it is registered, and a free slot exactly when there is room |
| Periodic.PeriodicTable.Add | src/services/uds_service_data.c:179-203 | adding or updating on any table: the counter decides on refusal, the slots on room |
| Periodic.PutAllExact | src/services/uds_service_data.c:178-204 | as long as the counter is exact, starting a list is map insertion and keeps it exact |
| Periodic.DropAllExact | src/services/uds_service_data.c:158-169 | stopping a list is map removal, and keeps the counter exact when 0 is not listed |
| Periodic.PeriodicTable.Stop | src/services/uds_service_data.c:160-167 | stopping is map removal; the counter stays exact if and only if the identifier is not 0 or no slot is free |
| Periodic.StopOfZero | src/services/uds_service_data.c:160-167 | what a stop of identifier 0 does to the counter and to later requests, for every number of registered identifiers |
| Periodic.FullTableForgets | src/services/uds_service_data.c:187-203 | a full table whose counter falls short acknowledges a new identifier without registering it |
| Periodic.PeriodicTable.StopEverything | src/services/uds_service_data.c:153-157 | stop all empties the table |
| Periodic.PeriodicTable.Handle | src/services/uds_service_data.c:142-208 | every request on every table, with its responses; as an operation on the map while the counter is exact |
| Periodic.PeriodicTable.Schedule | src/core/uds_core.c:333-362 | a pass sends each due identifier with data exactly once, moves exactly the due deadlines, keeps the identifiers; with counter 0 it sends nothing |
| PeriodicRate.RateBound | src/core/uds_core.c:337-359 | while registered at one rate, an identifier is sent at most 1 + T / interval times in any window of length T |
| PeriodicRate.RateByMode | src/core/uds_core.c:348-359 | the same in milliseconds for the three transmission modes |
| PeriodicRate.NextTransmission | src/core/uds_core.c:337-359 | a due identifier is transmitted at the next pass, and again at the first that comes an interval later |
| Periodic.AdvanceByMode | src/core/uds_core.c:348-359 | the next deadline for each transmission mode |
| DataById.Lookup | src/core/uds_core.c:73-85 | the first entry with the identifier, none only if no entry has it |
| DataById.DataService.FindDid | src/core/uds_core.c:73-85 | the lookup loop |
| DataById.LookupIsFirst | src/core/uds_core.c:73-85 | by index: the first entry with the identifier, none only if no entry has it |
| DataById.ReadOne | src/services/uds_service_data.c:22-78 | an accepted identifier yields the table's value, of the table's size, within the buffer |
| DataById.ReadOneJudged | src/services/uds_service_data.c:19-78 | in the fields of its entry: when an identifier is accepted, with which value, and which code each refusal has |
| DataById.DataService.AppendRecord | src/services/uds_service_data.c:22-78 | one round of the loop appends exactly that record to the response or yields its refusal code |
| DataById.DataService.Read | src/services/uds_service_data.c:14-89 | the response built in the buffer is the one specified for the whole list |
| DataById.PositiveIsFaithful | src/services/uds_service_data.c:14-89 | a positive response is 0x62 and each requested identifier with its table value in order, fits the buffer and parses back to those records |
| DataById.FirstFailureDecides | src/services/uds_service_data.c:21-84 | a negative response carries the code of the first identifier that the fields of its entry do not let be read, a positive one means there is none |
| DataById.DataService.WriteEntry | src/services/uds_service_data.c:91-140 | the write handler: its checks in order, the stored bytes, the response |
| DataById.WriteJudged | src/services/uds_service_data.c:91-140 | in the fields of the entry: when a write is accepted, what it stores, and which code each refusal has |
| DataById.WriteThenRead | src/services/uds_service_data.c:14-140 | after an accepted write every read request returns the new bytes for that identifier and the old ones for all others; a refused write changes nothing |
| Addressing.ParseAddrLen | src/core/uds_core.c:87-113 | the parse loops compute the big-endian values, or fail on a bad format or missing bytes |
| Addressing.ParseInvertsEncode | src/core/uds_core.c:87-113 | parsing inverts big-endian encoding for all widths 1 to 4 and all trailing bytes |
| Memory.MemoryService.WriteMemory | src/services/uds_service_mem.c:52-101 | when the write callback is reached, with what, and every response |
| Memory.MemoryService.ReadMemory | src/services/uds_service_mem.c:14-50 | every response of a memory read, which fits the buffer |
| Memory.ExactIffBelow64K | src/services/uds_service_mem.c:74-76 | a write that reaches the callback carries exactly the announced bytes if and only if it announces fewer than 2^16 |
| Memory.OversizeReachesCallback | src/services/uds_service_mem.c:74-76 | the exceptional requests exist for every address and every short content |
| Memory.WriteRoundTrip | src/services/uds_service_mem.c:52-101 | a proper write hands over address and content, and the echoed header parses back to the same pair |
| Node.LayersRefine | src/transport/uds_tp_isotp.c:239-332 | a run driven by CAN frames takes the core through exactly the steps of a run on the reassembled SDUs |
| NodeEngine.Stack.OnSingle | src/transport/uds_tp_isotp.c:239-260 | a single frame, with every malformed length and the call up to the core inside, makes exactly the step of the node |
| NodeEngine.Stack.OnConsecutive | src/transport/uds_tp_isotp.c:304-332 | so does a consecutive frame: ignored, aborted, stored, or completing and handed up inside the reception |
| NodeEngine.Stack.OnFrame | src/transport/uds_tp_isotp.c:349-378 | the whole receive callback, with the core's answer going through the transport before it returns, makes exactly the step of the node; a foreign identifier changes nothing |
| NodeEngine.Stack.Poll | src/transport/uds_tp_isotp.c:176-237 | the transport's tick as a step of the node |
| NodeEngine.Stack.Call | src/core/uds_core.c:287-404 | the core's tick and the application's calls as steps of the node |
| Node.OneAnswer | src/core/uds_core.c:406-471 | an incoming SDU makes the core send at most one SDU |
| Node.ResponseSurvives | src/transport/uds_tp_isotp.c:328-331 | a multi-frame response started inside the delivery of a request is still being sent, from its start, after the receive callback returns |
| Node.RequestServed | src/transport/uds_tp_isotp.c:239-332 | the frames of a request make the node's core take exactly that request's step, once |
| Node.RequestResponse | src/transport/uds_tp_isotp.c:86-332 | end to end: a request sent as frames is served once and its answer, sent as frames, is delivered exactly |

## Left out

- Zephyr port, examples, tools and scripts: drivers, demos and code generators around the stack.
- Logging, NULL arguments and the mutex callbacks: every API call is one atomic step; the missing unlock on the path that gives up a pending request is not modelled.
- RoutineControl, Authentication, TransferExit, RequestUpload, IO control, DTC services, communication control: each is one outcome of a delegated handler in `Core.dfy`; their payloads would only add one-branch facts.
- Services of `Flash.dfy`, `Periodic.dfy`, `DataById.dfy` and `Memory.dfy` inside `Core.dfy`: there they are delegated handlers too; their contexts are separate objects, while the C code keeps all of them in one struct.
- Return codes of `fn_tp_send`: it is taken to return 0 or a negative code, as its contract says, so a handler's result never equals UDS_PENDING by accident.
- Timeouts N_Cr and N_Bs, flow-control wait and overflow: the fields exist but no code acts on them.
- IsoTp.Receive: first frames shorter than 8 bytes and flow-control frames shorter than 3 are not described; the code reads the 8-byte payload it is promised beyond the received length, and a frame here is its received bytes only. CAN-FD first frames that announce no more than they carry are not described either; the sender never produces them, and `Bounds.ReceptionInsideIff` covers where they copy to.
- IsoTp.IsoTpLink.OnFirst: the same first frames.
- IsoTp.IsoTpLink.OnFlowControl: the same flow-control frames.
- NodeEngine.Stack.OnFrame: the same frames.
- CoreEngine.UdsServer.HandleEcuReset: the call of the application's reset callback is not recorded.
- Suppression.WithheldExactly: states the response for delegated handlers that answer positively; `Suppression.DispatchHonours` covers all handlers and outcomes.
- Segmentation.StreamLossSafety: a sufficient condition on openings only; `Reassembly.StreamSafeIff` is the exact one.
- Changing the frame format during a transfer, and client callbacks that call back into the stack.
- Security levels of 32 and more as shift counts in the identifier masks (undefined in C): taken as absent from the mask.
- BruteForce.FailuresTakeTime: assumes a clock that does not wrap within a delay, since the code compares absolute times; a restart of the stack resets the counter and starts a new run.
- PeriodicRate.RateBound: assumes a clock that does not wrap within an interval, for the same reason.
- DataById.WriteThenRead: for tables with unique identifiers, separate storage and no callbacks; a callback may do anything.
