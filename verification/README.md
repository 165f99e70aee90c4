# Heima: a verified model of its stateful core

Heima is a Home Assistant integration that evaluates a household's rooms and people and reacts to
them. This project models the parts of it that keep state over time, in Dafny, and proves what they
promise over all inputs and all runs. `dafny verify dfyconfig.toml` checks everything.

| part | modules |
|---|---|
| WebSocket client of the scripts: framing, masking, reassembly, buffered reading (RFC 6455, sections 5.2 to 5.5) | `WebSocketBits`, `WebSocketFrames`, `WebSocketStream`, `WebSocketClient` |
| Debounced evaluation scheduler, as a protocol with separate steps for timers, tasks and evaluations | `EvalProtocol`, `EvalScheduler` |
| Promotion of reactions from "ask residents" to "apply automatically" | `Promotion`, `PromotionRuns`, `PromotionPrompts`, `PromotionCooldown`, `PromotionDays`, `PromotionStore` |
| Topology and actuator registry: raw lists, graph, validation, edits, caches, reload decision | `RawRecords`, `RoomTopology`, `TopologyValidity`, `Actuators`, `TopologyEdits`, `TopologyRuns`, `TopologyMeaning`, `RoomChanges`, `EditReloads`, `TopologyStore` |
| Reconciliation of rooms and people with Home Assistant | `FreshNames`, `RoomReconciliation`, `PeopleReconciliation`, `NamesFollow`, `PeopleFixpoint`, `PeopleSettling`, `Reconciliation` |
| Options migrations and the update listener that re-enters itself | `ReactionPayloads`, `PayloadEffects`, `OptionsMigration`, `OptionsMeaning`, `OptionsEffects`, `OptionsSettling`, `OptionsSecondPass`, `OptionsListener` |
| Sliding-window limit on "why not now" requests | `RateLimiter` |

Each part has a functional description of one step, the classes and loops of the program proved to
compute it, and the theorems about runs. Sockets are a ghost stream with an arbitrary chunking,
masking keys are any four bytes, clock readings and generated ids are parameters.

## Findings

- Cancel-all does not always silence the scheduler. A class rescheduled between the firing of its
  timer and the start of the task loses the handle of its new timer without cancelling it, and that
  timer fires whatever is cancelled later. `EvalProtocol.CancelAllIsSilent` says exactly when
  cancelling works, `StaleTimersAreReachable` gives the run.
- The promotion cooldown does not progress. The document on resident runtime confirmation (under
  `docs/specs/core`, section "No, Not Now" Cooldown) promises 14, 30, 60, ... days for repeated
  dismissals; a renewed prompt starts a fresh record, so the first entry is always used. The model
  follows the code; see `PromotionCooldown`.
- That document counts distinct local days; the code counts UTC dates. Two hours east of UTC, two
  approvals in one night can prompt a review too early, and two on different days can fail to prompt
  one. `PromotionDays` says for which answers and policies the two readings agree.
- One reconciliation pass of rooms is a fixpoint exactly if every area it adds has a name: an object
  without a name is first stored under its own id and then, one pass later, under the empty name.
- Overlapping people can need further passes, because a merge can drop an entity that stays claimed.
  `PeopleFixpoint.OnePassReachesAPeopleFixpoint` says exactly when one pass is enough;
  `PeopleSettling.PeopleComeToRest` shows that repeated passes always come to rest.
- The options listener can need two re-entries, but never three. The second one is needed when a
  darkness reaction gets its type or the name of its signal from a stage that comes after the one
  giving it a bucket; `OptionsSecondPass.SecondPassIsNeeded` is the exact condition on the stored
  options.
- Moving burst settings renames the signals of every room, but the references of cooling reactions
  only: a reference of another reaction by a name that is not canonical is left dangling
  (`OptionsSecondPass.ReferenceSurvives`).

## Model

| member | source | states |
|---|---|---|
| `WebSocketBits.BitsAreDigits` | scripts/lib/ha_websocket.py:129-136 | On machine bytes, the masks 0x80, 0x7F and 0x0F and the `0x80 \|` of the header are exactly the number operations the wire format is written with. |
| `WebSocketBits.XorIsBitwise` | scripts/lib/ha_websocket.py:127 | The digit-wise exclusive or used for masking is the machine's `^` on every pair of bytes. |
| `WebSocketFrames.BigEndianRoundTrip` | scripts/lib/ha_websocket.py:132-137 | A length that fits survives `struct.pack` and `unpack` in 2 and 8 bytes. |
| `WebSocketFrames.FromBigEndianRoundTrip` | scripts/lib/ha_websocket.py:166-169 | Every length field is the encoding of the number read from it. |
| `WebSocketFrames.MaskingIsAnInvolution` | scripts/lib/ha_websocket.py:174-175 | Taking the mask off with the key it was put on with gives the payload back (section 5.3). |
| `WebSocketFrames.ClientFramesAre` | scripts/lib/ha_websocket.py:123-139 | A frame the client sends is final, carries the low four bits of the opcode, is masked with the key in front of the payload, and is no longer than any other masked frame with that payload. |
| `WebSocketFrames.ParseReadsWhatWasWritten` | scripts/lib/ha_websocket.py:159-177 | Any legal frame (any length form, masked or not, any reserved bits), anywhere in any stream, is read back as its FIN bit, opcode and payload, and reading stops exactly at its end. |
| `WebSocketFrames.ParseReadsOnlyFrames` | scripts/lib/ha_websocket.py:159-177 | Conversely, whatever the parser accepts is, byte for byte, the serialisation of a legal frame with the meaning returned. |
| `WebSocketFrames.FramesArePrefixFree` | scripts/lib/ha_websocket.py:159-177 | No position of a stream starts two different frames. |
| `WebSocketFrames.ParseIgnoresWhatFollows` | scripts/lib/ha_websocket.py:159-177 | Bytes arriving later do not change how a complete frame is read. |
| `WebSocketFrames.ParsedPayloadFits` | scripts/lib/ha_websocket.py:185-186 | A received payload is short enough to be sent back, so answering a ping cannot fail on its length. |
| `WebSocketStream.RunRoundTrip` | scripts/lib/ha_websocket.py:123-177 | For every list of opcodes and payloads below 2^64 bytes and every choice of masking keys, what is sent is read back as exactly that list with FIN set. |
| `WebSocketStream.TransmittedJoins` | scripts/lib/ha_websocket.py:139 | Sending one run after another is sending the joined run. |
| `WebSocketStream.ReceiveTakesOneFrame` | scripts/lib/ha_websocket.py:181-201 | One round of the reader over a known frame: it ends, or goes on behind the frame with the right fragments and answers. |
| `WebSocketStream.ControlsAreTransparent` | scripts/lib/ha_websocket.py:185-189 | Pings and pongs in front of a fragment change nothing but the answers, whatever has been collected. |
| `WebSocketStream.FragmentsAreCollected` | scripts/lib/ha_websocket.py:190-201 | From any point of a fragmented message on, one call returns what was collected plus the remaining payloads, in order. |
| `WebSocketStream.MessageIsReassembled` | scripts/lib/ha_websocket.py:179-201 | A text message in any number of fragments with any control frames between them is returned whole, its pings are answered in order, and nothing behind it is read (sections 5.4 and 5.5). |
| `WebSocketStream.CloseEndsTheCall` | scripts/lib/ha_websocket.py:183-184 | A close frame, behind any controls and whatever has been collected, ends the call as closed by the server: its payload is no message, and the pings before it are answered. |
| `WebSocketStream.StrayFramesAreSkipped` | scripts/lib/ha_websocket.py:195-201 | A frame of an unknown kind and a continuation of nothing are skipped; what has been collected and answered stays. |
| `WebSocketStream.ControlIsAnswered` | scripts/lib/ha_websocket.py:185-189 | A ping is answered with its own payload, a pong with nothing; fragments stay as they are. |
| `WebSocketStream.TextStartsAnew` | scripts/lib/ha_websocket.py:190-194 | A text frame drops fragments collected before it: it is the message if it is final, and its first fragment otherwise. |
| `WebSocketStream.LostConnectionEndsTheCall` | scripts/lib/ha_websocket.py:153-156 | Where no whole frame is left in the stream, the call ends with the connection, at the end of the stream. |
| `WebSocketStream.SessionDeliversEveryMessage` | scripts/lib/ha_websocket.py:179-201 | Successive calls return the messages in order, each once, with all pings answered in order. |
| `WebSocketStream.FoundTerminatorIsFirst` | scripts/lib/ha_websocket.py:94-100 | A header terminator found in the bytes so far is the first one of the whole stream, however the bytes were cut. |
| `WebSocketStream.HeadersEndAtTheFirstTerminator` | scripts/lib/ha_websocket.py:92-100 | Frames are read from right behind the first CRLFCRLF. |
| `WebSocketStream.SessionAfterHandshake` | scripts/lib/ha_websocket.py:85-100 | Handshake and reader together deliver every message that follows the headers, however early its bytes come in. |
| `WebSocketStream.CallFindsItsReply` | scripts/lib/ha_websocket.py:211-216 | A call skips the messages for others and takes the first reply with its id, and not a byte more: it returns the result of a successful one and rejects on any other. |
| `WebSocketStream.CloseLeavesTheCallUnanswered` | scripts/lib/ha_websocket.py:207-216 | When the server closes before the reply, the call has no answer, and nothing behind the close frame is read. |
| `WebSocketClient.Socket.Receive` | scripts/lib/ha_websocket.py:153 | A receive on an arbitrarily chunked connection: the next bytes, at most as many as asked for, none exactly at the end. |
| `WebSocketClient.Client.Handshake` | scripts/lib/ha_websocket.py:64-100 | Succeeds exactly when the headers end; then the reader's position is right behind their terminator, for every chunking. |
| `WebSocketClient.Client.RecvExactly` | scripts/lib/ha_websocket.py:145-157 | The next n bytes of the stream, or failure exactly when fewer remain, for every chunking and buffer. |
| `WebSocketClient.Client.SendFrame` | scripts/lib/ha_websocket.py:123-139 | Puts on the wire the final, masked frame in the shortest length form, or nothing when the length exceeds 64 bits. |
| `WebSocketClient.Client.RecvLength` | scripts/lib/ha_websocket.py:164-169 | The announced length in its three forms, or failure exactly when the stream ends within the extension. |
| `WebSocketClient.Client.RecvPayload` | scripts/lib/ha_websocket.py:171-175 | Key and payload with the mask taken off, or failure exactly when the stream ends within them. |
| `WebSocketClient.Client.RecvMessage` | scripts/lib/ha_websocket.py:159-177 | Result and position are those of the parser on the server's stream, independent of chunking. |
| `WebSocketClient.Client.Recv` | scripts/lib/ha_websocket.py:179-201 | Outcome and position are those of the stream-level reader; what was sent meanwhile is exactly one masked pong per ping, in order. |
| `WebSocketClient.Client.Call` | scripts/lib/ha_websocket.py:207-216 | Sends one request under a fresh id and returns the reply the stream-level wait finds, answering pings on the way. |
| `WebSocketClient.AnswersJoin` | scripts/lib/ha_websocket.py:185-187 | Answers to two batches of pings are the answers to all of them. |
| `WebSocketClient.OneAnswer` | scripts/lib/ha_websocket.py:185-187 | One pong with the ping's payload is the answer to one ping. |
| `EvalProtocol.InvariantIsKept` | custom_components/heima/coordinator.py:2122-2152 | Every step keeps: one evaluation at most in flight, a live timer or queued trigger for every pending class, equal keys of the two maps, flag true exactly when they have any. |
| `EvalProtocol.EveryRunIsSafe` | custom_components/heima/coordinator.py:2122-2152 | The same over every interleaving of scheduling, firing, task starts, periodic ticks, evaluation ends and cancel-all. |
| `EvalProtocol.StepCountsEvaluations` | custom_components/heima/coordinator.py:2142-2152 | A step that starts an evaluation sets the flag and adds one in flight, an end clears the flag and takes one away, and no other step touches either. |
| `EvalProtocol.RunCountsEvaluations` | custom_components/heima/coordinator.py:2142-2152 | Over every run, what is in flight is what was started minus what was ended, counted on the events. |
| `EvalProtocol.EvaluationsNeverOverlap` | custom_components/heima/coordinator.py:2142-2152 | From the start on, starts exceed ends by one exactly while the running flag is set and by nothing otherwise, and an evaluation starts only when all before it have ended. |
| `EvalProtocol.NoRequestIsLost` | custom_components/heima/coordinator.py:2122-2152 | Over every run a scheduled class that has been neither served nor cancelled is still going to be triggered, with the reason given last; when no timer and task is left, nothing is owed. |
| `EvalProtocol.TimersGoStaleByLateTriggers` | custom_components/heima/coordinator.py:2139-2145 | A timer becomes uncancellable exactly when a trigger task starts after its class has been rescheduled. |
| `EvalProtocol.TriggeringDropsOneHandle` | custom_components/heima/coordinator.py:2140-2145 | Triggering makes at most one timer stale: the registered one of its class, if it is still live. |
| `EvalProtocol.CancelAllIsSilent` | custom_components/heima/coordinator.py:1923-1928 | After cancel-all no evaluation starts until something new is scheduled, if and only if no task is queued and no timer is stale. |
| `EvalProtocol.LeftoverTriggers` | custom_components/heima/coordinator.py:1923-1928 | Otherwise there is a run without new requests that does start one. |
| `EvalProtocol.StaleTimersAreReachable` | custom_components/heima/coordinator.py:2133-2140 | Four steps from the initial state reach a stale timer. |
| `EvalProtocol.PromptRunsLeaveNoStaleTimer` | custom_components/heima/coordinator.py:2133-2137 | If tasks start as soon as their timers fire, no timer ever goes stale. |
| `EvalScheduler.EventLoop.CallLater` | custom_components/heima/coordinator.py:2137 | A new timer under a handle never used before. |
| `EvalScheduler.EventLoop.CancelTimer` | custom_components/heima/coordinator.py:2127-2129 | Removes that timer and no other; no effect on one that has fired. |
| `EvalScheduler.Scheduler.ScheduleEval` | custom_components/heima/coordinator.py:2122-2137 | Is the protocol's scheduling step on the whole state: old timer cancelled, new one registered, reason and flag set. |
| `EvalScheduler.Scheduler.TriggerEval` | custom_components/heima/coordinator.py:2139-2149 | Is the protocol's trigger step; an evaluation starts exactly when none is running, with the given, pending or default reason. |
| `EvalScheduler.Scheduler.FireTimer` | custom_components/heima/coordinator.py:2133-2135 | Is the firing step and keeps the invariant. |
| `EvalScheduler.Scheduler.StartTask` | custom_components/heima/coordinator.py:2139-2149 | Is the task-start step and keeps the invariant. |
| `EvalScheduler.Scheduler.EndEvaluation` | custom_components/heima/coordinator.py:2149-2152 | Is the end step, for normal and failing evaluations alike, and keeps the invariant. |
| `EvalScheduler.Scheduler.CancelEvalDebounceHandles` | custom_components/heima/coordinator.py:1923-1928 | Cancels exactly the registered timers and empties both maps and the flag. |
| `PromotionRuns.EveryPendingReviewIsBacked` | custom_components/heima/coordinator.py:1188-1381 | From an empty start, over every run: counters, approval dates and event log are exactly those of the answers since the last reset (dates without duplicates and no more than approvals, log the last 200 answers), and every pending review is backed by answers meeting the sample, rate and distinct-day thresholds. |
| `PromotionRuns.ApprovalDates` | custom_components/heima/coordinator.py:1225-1232 | The dates kept are those of the approvals, each once, and at most as many as approvals. |
| `PromotionRuns.ExplicitAnswerIsSummarised` | custom_components/heima/coordinator.py:1219-1238 | Recording an approval or dismissal turns the summary of the answers into the summary of the answers with this one added. |
| `PromotionRuns.UpdatedReviewIsSound` | custom_components/heima/coordinator.py:1253-1308 | Whatever review an answer leaves is sound for the answers so far: pending only with evidence and a reminder, revoked otherwise. |
| `PromotionRuns.RunIsSound` | custom_components/heima/coordinator.py:959-1308 | Soundness of statistics and review of a reaction is kept by every run of records, decisions and resets. |
| `PromotionRuns.OtherReactionsAreUntouched` | custom_components/heima/coordinator.py:959-1251 | An action on one reaction leaves configuration, statistics and review of every other as they are. |
| `PromotionRuns.ReviewsMoveAsCoded` | custom_components/heima/coordinator.py:959-1308 | A review's status changes only along the coded moves, each only by the action that is meant to make it. |
| `PromotionPrompts.PromptedExactly` | custom_components/heima/coordinator.py:1253-1308 | After an explicit answer a review is pending if and only if the answers meet all thresholds, the review was neither approved nor disabled, and a dismissed one has served its cooldown with enough new approvals. |
| `PromotionPrompts.PromptedExactlyInRuns` | custom_components/heima/coordinator.py:1188-1308 | The same at any moment of any run from an empty start, about the answers since the last reset. |
| `PromotionPrompts.NewPromptSays` | custom_components/heima/coordinator.py:1277-1290 | A new or renewed prompt carries its time twice and its reminder time, and nothing of an earlier review. |
| `PromotionPrompts.PendingReviewIsRemindedOf` | custom_components/heima/coordinator.py:1291-1332 | A review that stays pending keeps its prompt times, and a reminder is due exactly when the interval since the last prompt is over. |
| `PromotionPrompts.RevokedExactly` | custom_components/heima/coordinator.py:1303-1308 | A pending review without evidence is revoked, at the time of the answer and for the first requirement that is not met; every other review that is not prompted stays as it is. |
| `PromotionPrompts.LaterAnswersAreCounted` | custom_components/heima/coordinator.py:1414-1423 | The approvals and dismissals after a dismissal are those strictly later than it, one by one. |
| `PromotionPrompts.CooldownEntries` | custom_components/heima/coordinator.py:1399-1409 | The n-th dismissal is given the n-th entry of the schedule, or the last one when there are fewer. |
| `PromotionPrompts.LogHoldsTheLastAnswers` | custom_components/heima/coordinator.py:1233-1238 | The event log holds the last 200 answers, or all of them, in order. |
| `PromotionPrompts.CountersCount` | custom_components/heima/coordinator.py:1209-1220 | Over every run each counter is the number of its outcomes since the last reset, requests, timeouts and failures included. |
| `PromotionPrompts.RecordingLeavesTimes` | custom_components/heima/coordinator.py:1220-1224 | An outcome leaves its time, the first request its own as well, and no other time changes. |
| `PromotionPrompts.IgnoredOutcomes` | custom_components/heima/coordinator.py:1199-1217 | A cancelled request and an outcome of an unknown reaction change nothing; an outcome that is no answer leaves every review alone. |
| `PromotionPrompts.DecisionWrites` | custom_components/heima/coordinator.py:985-1010 | A decision writes the policy in force and the review field by field: approving the mode, disabling the prompts, dismissing the review alone. |
| `PromotionPrompts.ResetForgetsAll` | custom_components/heima/coordinator.py:1159-1186 | A reset leaves nothing of the statistics and the review, and the configuration as it is. |
| `PromotionRuns.FinalReviewsStay` | custom_components/heima/coordinator.py:1275-1308 | Approved and disabled reviews, and the policy they wrote, never change except under reset. |
| `PromotionRuns.DismissalHolds` | custom_components/heima/coordinator.py:1383-1432 | Over every run a dismissed review stays as it is until its first reset or until an answer comes after the scheduled cooldown with enough later approvals at the required rate. |
| `PromotionRuns.ReopeningNeedsNewApprovals` | custom_components/heima/coordinator.py:1414-1426 | In reachable states the approvals that reopen a dismissed review were really given after the dismissal, although only the last 200 answers are kept. |
| `PromotionRuns.CooldownNeverProgresses` | custom_components/heima/coordinator.py:1275-1290 | In every reachable state a dismissed review has been counted as dismissed once, so that only the first schedule entry is ever used. |
| `PromotionCooldown.OnlyFirstCooldownIsAsDocumented` | custom_components/heima/coordinator.py:1399-1409 | With an increasing schedule, the cooldown in force is the documented one exactly when the dismissal is the first since the last reset. |
| `PromotionCooldown.DefaultScheduleIncreases` | custom_components/heima/coordinator.py:1434-1448 | Without a usable schedule the default one is taken, and it increases. |
| `PromotionCooldown.SecondDismissalStartsOver` | custom_components/heima/coordinator.py:1275-1290 | A run of four actions after which a second dismissal is held for 14 days where 30 are documented. |
| `PromotionDays.OneMoreApprovalCountsAlike` | custom_components/heima/coordinator.py:1225-1232 | One more approval counts alike as a UTC date and as a local day if and only if, since the latest approval, a midnight has passed by both clocks or by neither. |
| `PromotionDays.DaysAreDayStarts` | custom_components/heima/coordinator.py:1225-1232 | By any clock, distinct days are counted by the approvals that come first after a midnight. |
| `PromotionDays.VerdictsDifferExactly` | custom_components/heima/coordinator.py:1354-1371 | Under a given policy the verdict with UTC dates differs from the documented one exactly when the test on days is reached and its threshold lies between the two counts. |
| `PromotionDays.ReadingsAgreeExactly` | custom_components/heima/coordinator.py:1366-1371 | The verdicts agree under every policy if and only if as many approvals come first after a UTC midnight as after a local one. |
| `PromotionDays.OneNightIsTwoDates` | custom_components/heima/coordinator.py:1225-1232 | Two approvals in one local night that make a reaction eligible although two local days are required. |
| `PromotionDays.TwoDaysAreOneDate` | custom_components/heima/coordinator.py:1225-1232 | Two approvals on two local days that do not, because they share a UTC date. |
| `Promotion.CooldownDays` | custom_components/heima/coordinator.py:1399-1409 | The entry looked up is always positive: the index stays inside the schedule for every dismissal count. |
| `PromotionStore.Reactions.RecordOutcome` | custom_components/heima/coordinator.py:1188-1251 | The new stored state is exactly the record action's, for every reaction and outcome. |
| `PromotionStore.Reactions.UpdateReview` | custom_components/heima/coordinator.py:1253-1308 | Only the review of this reaction changes, to the one the answer asks for. |
| `PromotionStore.Reactions.ReviewPromotion` | custom_components/heima/coordinator.py:959-1011 | Accepted exactly for a configured reaction whose review is pending; the new stored state is the decision's. |
| `PromotionStore.Reactions.ResetPromotionState` | custom_components/heima/coordinator.py:1159-1186 | Forgets statistics and review of one reaction, and tells whether there were any. |
| `RawRecords.ParseRecords` | custom_components/heima/room_topology.py:147-202 | The parsing loop with its seen-set is the best-effort parse: entries in order, malformed ones and taken ids skipped. |
| `RawRecords.ParsedIdsAreDistinct` | custom_components/heima/room_topology.py:150-162 | No two parsed records share an id. |
| `RawRecords.ParsedFromAnEntry` | custom_components/heima/room_topology.py:152-173 | Every parsed record was decoded from a stored entry. |
| `RawRecords.ParsedAreTheFirst` | custom_components/heima/room_topology.py:150-173 | The parsed records are exactly those decoded from the first decodable entry of each id. |
| `RawRecords.ParsedInOrder` | custom_components/heima/room_topology.py:150-173 | They come in the order of their entries. |
| `TopologyMeaning.OpeningEntriesDecode` | custom_components/heima/room_topology.py:152-173 | Which stored texts make an opening, and which texts its fields are. |
| `TopologyMeaning.ConnectionEntriesDecode` | custom_components/heima/room_topology.py:182-201 | Which stored texts make a connection; unknown access is direct, an unknown override none. |
| `TopologyMeaning.ActuatorEntriesDecode` | custom_components/heima/actuators.py:63-82 | Which stored texts make an actuator. |
| `RawRecords.ShorterMeansStored` | custom_components/heima/room_topology.py:619-622 | Comparing list lengths finds out exactly whether the id is stored. |
| `RawRecords.DeleteRefines` | custom_components/heima/room_topology.py:610-623 | Parsing after a delete is the previous parse without that id, even with duplicates and malformed entries. |
| `RawRecords.UpsertRefines` | custom_components/heima/room_topology.py:596-607 | Parsing after an upsert is the previous parse without that id, followed by the new record. |
| `TopologyValidity.LookupMeansParsed` | custom_components/heima/room_topology.py:251-254 | Looking an opening up by id finds the parsed opening with that id, and all of them. |
| `TopologyValidity.ErrorsAreFaults` | custom_components/heima/room_topology.py:337-486 | Each error is reported exactly when its fault is present: dangling opening room, dangling opening, non-door, dangling room, conflicting boundaries of a shared entity. |
| `TopologyValidity.IsolationIsWarranted` | custom_components/heima/room_topology.py:419-443 | The isolation warning is given exactly for rooms of the house, once topology is declared, that no resolved connection touches. |
| `TopologyValidity.EntityConflictsAre` | custom_components/heima/room_topology.py:445-486 | A conflict is reported exactly for entities whose openings end up with more than one boundary type. |
| `TopologyValidity.HiddenIffReported` | custom_components/heima/room_topology.py:316-417 | A parsed connection is missing from the graph if and only if an error is reported on it or on its opening's room. |
| `TopologyValidity.ErrorFreeResolvesEverything` | custom_components/heima/room_topology.py:246-284 | An error-free topology resolves every parsed connection, in order. |
| `TopologyValidity.ErrorFreeMeansConsistent` | custom_components/heima/room_topology.py:337-488 | The validator finds no error exactly when all references resolve, connections go through doors and no entity guards two boundaries. |
| `TopologyValidity.BoundaryIsTheMoreRemoteSide` | custom_components/heima/room_topology.py:205-220 | The derived type is that of the more remote side, in either direction; outside is separate; an override wins. |
| `TopologyMeaning.ConnectionsOfTheGraph` | custom_components/heima/room_topology.py:246-278 | A connection of the graph starts in the room of its opening, which is a door, and its boundary follows from the override and the room types as they are stored. |
| `TopologyMeaning.ExposureOfRooms` | custom_components/heima/room_topology.py:223-232 | A room of the graph is exposed to a direction exactly when it has a window or door window that way. |
| `TopologyMeaning.IsolationOnTexts` | custom_components/heima/room_topology.py:419-443 | The isolation warning on stored room types and on the ends of the connections of the graph. |
| `TopologyMeaning.BoundaryIsOfTheLast` | custom_components/heima/room_topology.py:350-352 | An opening has the boundary of the last connection resolved through it. |
| `TopologyMeaning.ConflictMeansTwoBoundaries` | custom_components/heima/room_topology.py:450-472 | An entity is in conflict exactly when two of its openings have boundaries that differ. |
| `TopologyMeaning.SharingIsWarnedAbout` | custom_components/heima/room_topology.py:473-486 | Several openings of one entity are warned about exactly when they are not in conflict. |
| `TopologyEdits.AllowedMeansErrorFree` | custom_components/heima/room_topology.py:531-541 | A candidate is accepted exactly when it is free of errors. |
| `TopologyMeaning.EditsAreCharacterised` | custom_components/heima/room_topology.py:531-673 | An edit is accepted exactly when its words are known and its record is stored where it has to be, no actuator stands at a deleted opening, and the edited options are consistent, or hold no actuator at an opening of another room. |
| `TopologyMeaning.NewOpeningsAreAccepted` | custom_components/heima/room_topology.py:576-607 | From an error-free topology an opening under a new id is accepted exactly when its words are known and its room exists. |
| `TopologyMeaning.NewActuatorsAreAccepted` | custom_components/heima/actuators.py:274-302 | An actuator under a new id is accepted exactly when it has an entity and a room, and its opening, if it exists, is in that room. |
| `TopologyMeaning.RefusalsSayWhy` | custom_components/heima/coordinator.py:1013-1093 | A refusal names exactly the faults the edit would leave, or the reference that forbids a deletion, or nothing when the request makes no sense. |
| `TopologyMeaning.ActuatorWarningsAre` | custom_components/heima/actuators.py:155-222 | Actuators are warned about exactly when their room or opening does not exist, entities when several actuators have them. |
| `TopologyRuns.RawEditsRefineRecordEdits` | custom_components/heima/coordinator.py:1013-1157 | Every accepted edit of the raw lists is the plain edit of the parsed records. |
| `TopologyRuns.RunsStayErrorFree` | custom_components/heima/coordinator.py:1013-1157 | From an error-free topology no run of edits leads to one with errors. |
| `TopologyRuns.OpeningDeletionIsCharacterised` | custom_components/heima/coordinator.py:1060-1093 | From an error-free topology, deleting a stored opening succeeds exactly when no connection and no actuator refers to it. |
| `TopologyRuns.ConnectionDeletionFailsOnlyInConflict` | custom_components/heima/room_topology.py:660-673 | From an error-free topology, deleting a stored connection succeeds exactly when no shared entity is left with two boundaries. |
| `TopologyRuns.ConnectionDeletionAlwaysSucceeds` | custom_components/heima/room_topology.py:660-673 | With at most one connection per opening it always succeeds. |
| `TopologyRuns.ActuatorEditsAllowed` | custom_components/heima/actuators.py:140-202 | An actuator edit is accepted exactly when no actuator's opening belongs to another room; other faults never block it. |
| `TopologyRuns.ActuatorReferencesSurvive` | custom_components/heima/actuators.py:127-137 | Over any run of room, opening, connection and actuator edits, a resolving actuator reference keeps resolving until that actuator is rewritten or deleted. |
| `RoomChanges.TopologyOnlyIsAnEquivalence` | custom_components/heima/room_topology.py:683-708 | The comparison of room lists is reflexive, symmetric and transitive. |
| `RoomChanges.FullReloadExactly` | custom_components/heima/__init__.py:142-155 | A full reload is asked for exactly when another structural option has changed, or a room was added or removed or changed in a field other than room type, floor and geometry. |
| `RoomChanges.RoomsByIdAre` | custom_components/heima/room_topology.py:235-243 | A room id stands for the last stored entry with it. |
| `RoomChanges.FieldEditsAreTopologyOnly` | custom_components/heima/room_topology.py:544-573 | Every room-field edit gives a list the comparison relates to the old one. |
| `RoomChanges.FieldEditsSetTheFields` | custom_components/heima/room_topology.py:559-570 | The edit sets the given fields of its room and leaves every other room and field alone. |
| `RoomChanges.EditsNeverForceAFullReload` | custom_components/heima/__init__.py:142-170 | However many topology and actuator edits come between two looks at the options, the comparison with the snapshot asks for a light reload. |
| `EditReloads.EditsReloadLightly` | custom_components/heima/__init__.py:113-170 | From options that no migration changes, any run of edits leads to options that no migration changes either, so the listener writes nothing back and reloads lightly. |
| `TopologyStore.CollectRooms` | custom_components/heima/room_topology.py:235-243 | The loop gives the rooms by id, the last entry of an id counting. |
| `TopologyStore.ResolveTopologyGraph` | custom_components/heima/room_topology.py:246-284 | The loop gives the specified graph. |
| `TopologyStore.BuildTopologyGraph` | custom_components/heima/room_topology.py:316-325 | The graph of the stored options. |
| `TopologyStore.CheckOpenings` | custom_components/heima/room_topology.py:356-371 | The loop reports the specified issues of openings. |
| `TopologyStore.CheckConnections` | custom_components/heima/room_topology.py:373-417 | The loop reports the specified issues of connections. |
| `TopologyStore.CheckIsolation` | custom_components/heima/room_topology.py:422-443 | The loop reports the specified isolation warnings. |
| `TopologyStore.CheckSharedEntities` | custom_components/heima/room_topology.py:450-486 | The loop reports the specified issues of shared entities. |
| `TopologyStore.CheckTopology` | custom_components/heima/room_topology.py:337-488 | All issues in the order in which the validator reports them. |
| `TopologyStore.CheckActuatorReferences` | custom_components/heima/actuators.py:155-202 | The loop reports the specified issues of single actuators. |
| `TopologyStore.CheckActuators` | custom_components/heima/actuators.py:140-224 | All actuator issues in the order in which the validator reports them. |
| `TopologyStore.Registry.ApplyMutation` | custom_components/heima/coordinator.py:1013-1022 | The options change exactly on acceptance; a refusal hands over its reasons. |
| `TopologyStore.Registry.EditTopology` | custom_components/heima/coordinator.py:1024-1157 | An entry point is one edit of the stored options, with its reasons when it is refused. |
| `TopologyStore.Registry.DeleteRoomOpening` | custom_components/heima/coordinator.py:1060-1093 | Same for deleting an opening, which looks at actuators first and compares list lengths. |
| `TopologyStore.Cache.Read` | custom_components/heima/room_topology.py:308-313 | Rebuilds exactly when stale; the result is built from the options of the last rebuild. |
| `TopologyStore.CachesAgree` | custom_components/heima/room_topology.py:290-313 | In every run where a stale mark comes between a change of the options and the next read, every read returns what direct computation would; the actuator cache has the same shape. |
| `FreshNames.DecimalIsInjective` | custom_components/heima/reconciliation.py:301-304 | Different suffix numbers have different decimals. |
| `FreshNames.OneMoreTried` | custom_components/heima/reconciliation.py:302-303 | Each taken suffix lowers the number of ids not yet met, so the search ends. |
| `FreshNames.FirstFree` | custom_components/heima/reconciliation.py:301-304 | The suffix found is the first free one. |
| `FreshNames.FreshName` | custom_components/heima/reconciliation.py:299-305 | The id found is not taken, and is the base itself whenever that is free. |
| `FreshNames.TakenNamesAreNumbered` | custom_components/heima/reconciliation.py:299-304 | A taken id gets an underscore and the first free number from two on. |
| `FreshNames.DecimalReads` | custom_components/heima/reconciliation.py:302-304 | The suffix reads as its number, in decimal digits without leading zeros. |
| `FreshNames.SearchFreshName` | custom_components/heima/reconciliation.py:91-97 | The loop finds that id. |
| `RoomReconciliation.ReconciledTwice` | custom_components/heima/reconciliation.py:271-293 | Reconciling one stored room again changes nothing. |
| `NamesFollow.RoomNamesFollow` | custom_components/heima/reconciliation.py:269-293 | In the reconciled list a room's display name is unchanged exactly if it is the area's name already, or not empty and reviewed or different from the stored source name; otherwise it is the area's. The source name becomes the area's and the status says whether the room is reviewed. Without an area of the inventory the names stay and the room is orphaned. Nothing else changes but area and source. |
| `NamesFollow.RoomIsBoundToFirstKnown` | custom_components/heima/reconciliation.py:343-360 | A bound room stays bound; another one is bound to the first of its id, its id as a slug and its name as a slug that is an area. |
| `NamesFollow.ReviewedNamesSurvive` | custom_components/heima/reconciliation.py:280-293 | A reviewed name of a room survives every number of passes, whatever the areas are called meanwhile. |
| `NamesFollow.HandGivenNamesSurvive` | custom_components/heima/reconciliation.py:280-293 | So does an unreviewed name that differs from the source name, as long as no area gets that name. |
| `NamesFollow.NamesSurviveTheSameInventory` | custom_components/heima/reconciliation.py:280-293 | Against one inventory a name given by hand survives in any case. |
| `NamesFollow.AddedRoomSays` | custom_components/heima/reconciliation.py:295-324 | An added room has the area's name or else its own id, is new and not reviewed, and has the area's id unless that is taken. |
| `NamesFollow.InventoryNamesAre` | custom_components/heima/reconciliation.py:253-257 | The inventory holds the ids that are not empty, each with the name of its last object. |
| `NamesFollow.InventoryOrderIs` | custom_components/heima/reconciliation.py:253-257 | Its ids are in the order of their first objects. |
| `RoomReconciliation.AddedRoomsAreNew` | custom_components/heima/reconciliation.py:295-324 | Each added room is for an area no stored room was bound to, under an id not taken. |
| `RoomReconciliation.SecondPass` | custom_components/heima/reconciliation.py:249-324 | A second pass adds no room. |
| `RoomReconciliation.OnePassReachesAFixpoint` | custom_components/heima/reconciliation.py:249-340 | Reconciling the result again changes nothing if and only if every area a room was added for has a name. |
| `RoomReconciliation.TwoPassesReachAFixpoint` | custom_components/heima/reconciliation.py:249-340 | Two passes always reach a fixpoint. |
| `RoomReconciliation.IdsStayDistinct` | custom_components/heima/reconciliation.py:263-324 | Stored rooms keep ids and order, room ids stay distinct, and every area has a room in the result. |
| `PeopleReconciliation.CollectedWithoutOverlap` | custom_components/heima/reconciliation.py:48-85 | Without overlaps nothing is merged and exactly the slugs and entities of the result are claimed. |
| `NamesFollow.PersonFollows` | custom_components/heima/reconciliation.py:48-71 | The same for the names of a person and its entity; an empty presence rule becomes the resident's. |
| `NamesFollow.PersonIsBound` | custom_components/heima/reconciliation.py:214-246 | A person without entity is bound to the one of its slug, or else of its name as a slug, or else to the only one of the same name in whatever case. |
| `NamesFollow.PeopleKeepTheirNames` | custom_components/heima/reconciliation.py:59-71 | A reviewed name of a person survives every number of passes, and one given by hand as long as no entity is called so. |
| `NamesFollow.MergingCompletes` | custom_components/heima/reconciliation.py:145-211 | Of two overlapping people the reviewed one is kept, or else the one with the better status, or else the one without an underscore; the other one only fills what it leaves open. |
| `NamesFollow.AddedPersonSays` | custom_components/heima/reconciliation.py:87-115 | An added person has the entity's name or else its slug, and the object id as its slug unless that is taken. |
| `NamesFollow.ObjectIdStandsBehindTheDot` | custom_components/heima/reconciliation.py:91 | The object id is what stands behind the first dot. |
| `PeopleReconciliation.PeopleStaySeparate` | custom_components/heima/reconciliation.py:48-115 | People that share no slug and no entity still share none after a pass, with those added. |
| `PeopleFixpoint.NothingMerged` | custom_components/heima/reconciliation.py:72-85 | If collecting merges nothing, no two records overlap, and exactly their slugs and entities are claimed. |
| `PeopleFixpoint.OnePassReachesAPeopleFixpoint` | custom_components/heima/reconciliation.py:35-131 | For every list of people, overlapping or not, one pass reaches a fixpoint if and only if the merged records overlap no more and are in step, hold exactly the claimed entities of the inventory, leave the slugs of new people alone, and every new person's entity has a name. |
| `PeopleFixpoint.SeparatePeopleNeedOnlyNames` | custom_components/heima/reconciliation.py:35-131 | When no two people share a slug or entity after binding, that comes down to the names. |
| `PeopleFixpoint.OverlapsBreakTheFixpoint` | custom_components/heima/reconciliation.py:72-90 | Two people under one slug, the second reviewed: the merge loses the first entity from the result but not from the claims, and the next pass brings it back. |
| `PeopleSettling.MergingLosesWeightOrRank` | custom_components/heima/reconciliation.py:145-211 | A merge never makes a list heavier in reviewed, unbound or entity-less records; if it keeps the weight, the record in place keeps its slug and entity or takes over those of a strictly preferred one. |
| `PeopleSettling.FrontGrows` | custom_components/heima/reconciliation.py:48-115 | A pass leaves a front of records that overlap nothing as it is, and adds the next record to it unless that one has taken over a preferred record. |
| `PeopleSettling.PeopleComeToRest` | custom_components/heima/reconciliation.py:35-131 | For every list of people, finitely many passes reach a list that a further pass does not change. |
| `Reconciliation.BuildInventory` | custom_components/heima/reconciliation.py:39-43 | The dictionary of names by id, in order of first occurrence, the last name counting. |
| `Reconciliation.SyncRooms` | custom_components/heima/reconciliation.py:269-293 | The loop reconciles every stored room in place. |
| `Reconciliation.AddRooms` | custom_components/heima/reconciliation.py:295-324 | The loop adds the specified rooms in inventory order. |
| `Reconciliation.ReconcileRoomList` | custom_components/heima/reconciliation.py:249-324 | The whole room reconciliation. |
| `Reconciliation.CollectPeople` | custom_components/heima/reconciliation.py:44-85 | The loop merges into the first overlapping record and claims slugs and entities of unmerged records only. |
| `Reconciliation.AddPeople` | custom_components/heima/reconciliation.py:87-115 | The loop adds the specified people. |
| `Reconciliation.ReconcilePersonList` | custom_components/heima/reconciliation.py:35-115 | The whole people reconciliation. |
| `Reconciliation.ReconcileOptions` | custom_components/heima/reconciliation.py:12-32 | People and rooms reconciled, and the verdict whether anything changed. |
| `Reconciliation.SecondReconciliationReportsNoChange` | custom_components/heima/coordinator.py:2154-2159 | The reconciliation before the next evaluation reports no change, so that the evaluation is not skipped again, exactly when the merged people are final and every object added had a name. |
| `Reconciliation.ReconciliationComesToRest` | custom_components/heima/coordinator.py:2154-2159 | While Home Assistant's objects stay the same, only finitely many evaluations are skipped, whatever people and rooms are stored. |
| `OptionsMeaning.LegacyValuesArrive` | custom_components/heima/options_migration.py:25-50 | Filled slots keep their value, empty ones take the legacy value meant for them with the dedicated sensor before the weather entity; only the legacy keys go. |
| `OptionsMeaning.BucketIsTheFirstAbove` | custom_components/heima/room_sources.py:483-494 | A threshold becomes the first bucket that reaches beyond it, whenever there is one. |
| `OptionsMeaning.MergeReachesItsSignal` | custom_components/heima/room_sources.py:539-560 | A burst setting reaches the signal it is for and no other. |
| `OptionsMeaning.SettingsArrive` | custom_components/heima/room_sources.py:314-381 | Every signal ends up with the settings of the last cooling reaction that has any for it, and keeps its own when none has. |
| `OptionsEffects.BurstSettingArrives` | custom_components/heima/room_sources.py:337-362 | After the stage a signal carries what the last cooling reaction with a number for it has stored: the number under the rise key, or under the threshold key without one; the correlation window if positive, or 600; and the direction down for the mode drop, both for both, and up for any other mode or none. |
| `OptionsEffects.BurstSettingStays` | custom_components/heima/room_sources.py:337-362 | A signal that no cooling reaction has a number for keeps its settings. |
| `OptionsEffects.CleaningKeepsTheRest` | custom_components/heima/room_sources.py:330-381 | A cooling reaction loses its legacy settings and has its signals renamed, and nothing else about it changes. |
| `OptionsEffects.ShortNamesAreThoseOfTheirClass` | custom_components/heima/room_sources.py:580-590 | The four short names become the names that new signals of their device class get; every other name is lowered. |
| `OptionsEffects.DarknessGetsItsBucket` | custom_components/heima/room_sources.py:240-269 | A darkness reaction without bucket and with a threshold gets the first bucket of its signal that reaches beyond it, in place of the threshold; every other reaction stays. |
| `OptionsEffects.BucketsAreOfTheLastOffer` | custom_components/heima/room_sources.py:465-480 | The buckets looked up are the labelled ones of the last signal of that room and name that has any. |
| `OptionsEffects.SignalOfSource` | custom_components/heima/room_sources.py:201-220 | Which signal, with which buckets, a source of each device class gives, and that others give none. |
| `OptionsEffects.SynthesizedJoins` | custom_components/heima/room_sources.py:201-220 | Sources give their signals one after the other, in their order. |
| `OptionsEffects.RoomGetsItsSignals` | custom_components/heima/room_sources.py:192-226 | A room without signals gets those of its sources; everything else about the rooms stays. |
| `OptionsSettling.AutopopulateSettles` | custom_components/heima/room_sources.py:182-227 | Afterwards no room lacks signals that could be synthesised. |
| `OptionsSettling.BucketIsFinal` | custom_components/heima/room_sources.py:230-273 | A reaction that got its bucket never needs another. |
| `OptionsSettling.NothingMoves` | custom_components/heima/room_sources.py:276-387 | The burst stage reports no change when no cooling reaction in a known room holds legacy settings. |
| `OptionsSettling.UnchangedMeansSettled` | custom_components/heima/room_sources.py:276-387 | It reports no change only then. |
| `OptionsSettling.MoveAllSettles` | custom_components/heima/room_sources.py:314-381 | Afterwards no cooling reaction in a known room holds legacy settings. |
| `ReactionPayloads.NormalizedIsNormal` | custom_components/heima/runtime/reactions/_compat.py:82-149 | A reaction that the payload stage has normalised and kept is not changed or removed by it again, routines and alarm policies included. |
| `ReactionPayloads.RoutineStays` | custom_components/heima/runtime/reactions/scheduled_routine.py:155-195 | A normalised routine whose redacted entries have gone and that still has steps normalises to itself. |
| `PayloadEffects.KeptHoldNoMarker` | custom_components/heima/runtime/reactions/_compat.py:152-154 | No reaction that the stage keeps holds the redaction marker in any of its texts. |
| `PayloadEffects.IntactIsKept` | custom_components/heima/runtime/reactions/_compat.py:82-189 | An intact reaction gets its type and is otherwise left as it is, and is kept exactly when it has what its type works with. |
| `PayloadEffects.TypesComeFirst` | custom_components/heima/runtime/reactions/_compat.py:35-41 | A stored type counts before the legacy class, and no class stays. |
| `PayloadEffects.ClassesHaveTypes` | custom_components/heima/runtime/reactions/_compat.py:11-22 | The types of the ten legacy classes. |
| `PayloadEffects.RoutineStepsAre` | custom_components/heima/runtime/reactions/scheduled_routine.py:169-175 | A routine keeps its usable steps; without any it gets those of its targets. |
| `PayloadEffects.StepOfTarget` | custom_components/heima/runtime/reactions/scheduled_routine.py:294-321 | Which step a target gives, by the kind of the routine and the domain of the target. |
| `PayloadEffects.RoutineKeeps` | custom_components/heima/runtime/reactions/scheduled_routine.py:155-195 | A routine is left with its targets, steps, own texts and domains, those stored or else those of its targets. |
| `PayloadEffects.NormalStepSays` | custom_components/heima/runtime/reactions/alarm_policy.py:281-313 | Which steps of routines and alarm policies are kept, and what is left of them. |
| `PayloadEffects.SupportedActions` | custom_components/heima/runtime/reactions/alarm_policy.py:18-25 | The actions steps may have, domain by domain; only alarm policies may set a climate. |
| `OptionsSettling.NormalizedAre` | custom_components/heima/runtime/reactions/_compat.py:56-66 | What the payload stage leaves is exactly the normalised form of each reaction it keeps. |
| `OptionsSettling.NormalizedDarkness` | custom_components/heima/runtime/reactions/_compat.py:86-92 | A normalised reaction needs a bucket exactly when its type, resolved from a legacy class if need be, is the darkness one, and bucket and rooms say so. |
| `OptionsSettling.OnePassAlmostSettles` | custom_components/heima/__init__.py:115-140 | After one pass of the five stages everything is settled but, perhaps, darkness reactions. |
| `OptionsSettling.TwoPassesSettle` | custom_components/heima/__init__.py:113-140 | Whatever the stored options, a third pass of the five stages reports no change and returns them equal: the re-entry ends. |
| `OptionsSettling.UnchangedPassesChangeNothing` | custom_components/heima/__init__.py:129-140 | A pass that reports no change returns equal options. |
| `OptionsSecondPass.SecondPassIsNeeded` | custom_components/heima/__init__.py:113-140 | A second pass changes something if and only if some stored darkness reaction without bucket survives, finds its bucket in the rooms as renamed by the burst stage, and was stored under its legacy class or found none before the renaming: a condition on the stored options alone. |
| `OptionsSecondPass.TwoPassesCanBeNeeded` | custom_components/heima/room_sources.py:300-311 | Options for which it does: the burst stage renames the signal that the darkness stage had looked for in vain. |
| `OptionsSecondPass.LegacyClassesNeedTwoPasses` | custom_components/heima/runtime/reactions/_compat.py:86-92 | Options for which it does without any renaming: the type comes after the stage that looks at it. |
| `OptionsSecondPass.RenamingAndReferences` | custom_components/heima/room_sources.py:300-311 | Renaming signals breaks exactly the references by names that are not canonical; the canonical form of a reference always finds its signal. |
| `OptionsSecondPass.ReferenceSurvives` | custom_components/heima/room_sources.py:303-341 | A reaction's reference to an existing signal still finds it after a pass if and only if nothing was moved, or the reaction is a cooling one, or the name was canonical. |
| `OptionsSecondPass.ReferencesCanDangle` | custom_components/heima/room_sources.py:303-341 | Stored options whose darkness reaction refers to the room's only signal before the first pass and to none after it. |
| `OptionsListener.MoveLearningKeys` | custom_components/heima/options_migration.py:16-50 | The nested loop is the first stage, with its verdict. |
| `OptionsListener.PopulateSignals` | custom_components/heima/room_sources.py:182-227 | The loop is the second stage, with its verdict. |
| `OptionsListener.ReplaceDarknessThresholds` | custom_components/heima/room_sources.py:230-273 | The loop is the third stage, with its verdict. |
| `OptionsListener.MoveBurstSettings` | custom_components/heima/room_sources.py:276-387 | The loop is the fourth stage, with its verdict. |
| `OptionsListener.NormalizePayloads` | custom_components/heima/runtime/reactions/_compat.py:44-79 | The loop is the fifth stage, with its verdict. |
| `OptionsListener.Entry.Updated` | custom_components/heima/__init__.py:102-170 | Writes the migrated options back and re-enters exactly when a stage reported a change; otherwise takes the options over and reloads fully or lightly, by comparison with the last snapshot. |
| `OptionsListener.Entry.Settle` | custom_components/heima/__init__.py:113-170 | One update leads to at most two writes, to two exactly when some darkness reaction gets its bucket late, and then to one reload, decided by comparing the settled options with those before the update. |
| `RateLimiter.Limiter.IsAllowed` | custom_components/heima/websocket_api.py:449-462 | Grants exactly when fewer than two stored stamps are recent, and stores exactly the recent stamps and a granted call's own. |
| `RateLimiter.LimitHoldsOverRuns` | custom_components/heima/websocket_api.py:449-462 | With a clock that never runs back, any three consecutive grants of an entry span at least 60 s, and a call is refused exactly when two grants of the whole history lie inside the window. |
| `RateLimiter.RefusedExactly` | custom_components/heima/websocket_api.py:449-462 | A request is refused exactly when the second last request granted to its entry is less than 60 s ago. |
| `RateLimiter.EntriesAreIndependent` | custom_components/heima/websocket_api.py:451 | Whether a request is granted depends on the requests of its own entry alone; only those without an entry share with the entry called default. |
| `RateLimiter.RunsAreLimited` | custom_components/heima/websocket_api.py:449-462 | Over every run the pruned list holds exactly the grants that were recent at the entry's last call. |
| `RateLimiter.StoredListsStayShort` | custom_components/heima/websocket_api.py:449-462 | No stored list ever has more than two entries. |

## Left out

- JSON, TLS, UTF-8, socket timeouts, closing: messages are byte sequences, a call's `encode` and `decode` are parameters, and text that does not decode is not modelled.
- The authentication exchange, subscriptions and event waits on top of the message reader (`scripts/lib/ha_websocket.py:102-109`, `218` and following).
- WebSocketClient.Client.Call: requires the encoded request to be shorter than 2^64 bytes; `struct.pack` would raise above that.
- Debounce durations: a registered timer may fire at any moment, so the results hold for all of them.
- EvalProtocol.Enabled: no request is scheduled for the periodic fallback, because no entity is classified as one; the rearming of its own timer is reduced to ticks that may come at any time.
- What an evaluation does, and its parameters; it starts, may be suspended, and ends normally or with an error alike.
- `resolve_execution_policy_config` and the policy profiles: any fixed function of a reaction's configuration. Changes of the configuration other than by the three modelled actions are left out, and so is a change of the profiles.
- Older spellings of the dismissal count and time (`custom_components/heima/coordinator.py:1393-1407`), the marker fields of a review that only repeat its status, malformed stored statistics, and blank reaction ids, which are turned away before anything is looked up.
- Rates and time stamps are rationals and microseconds; floating-point rounding is not modelled.
- Stored ids are taken as trimmed. The editing functions compare them untrimmed and the parsers strip them, so the refinement of raw edits does not cover ids with surrounding blanks.
- A stored option that is not a list reads as the empty list; falsy and absent values of a raw entry read alike.
- Actuators.IsActuatorError: dangling actuator references are warnings in the code, so "no actuator error" says nothing about them, and topology edits do not look at it.
- Exposure of rooms is a set; the program's sorting of it, floors as numbers, the texts of issues, and the editor's snapshots are not modelled.
- Generated record ids are only known to be non-empty; a clash with a stored id replaces it, in the model as in the code.
- RoomReconciliation.IdsStayDistinct: claims that every area has at least one room, not exactly one; which areas are bound is looked at before unbound rooms are matched.
- PeopleFixpoint.OnePassReachesAPeopleFixpoint: entity ids without a text behind their dot are outside it, and outside `PeopleSettling.PeopleComeToRest`; on those without a dot the code raises.
- The summaries and counts of a reconciliation, and the difference between a missing and an empty list of people or rooms.
- `slugify`, case folding, lowering and number parsing are arbitrary fixed functions; OptionsMeaning.SettingsArrive only assumes that lowering keeps the three directions, OptionsEffects.BurstSettingArrives also that absent texts read as nothing, and OptionsSecondPass.ReferenceSurvives that lowering twice is lowering once, empties no text and keeps canonical names.
- OptionsSettling.TwoPassesSettle: how the normalisers of routines and alarm policies read numbers, flags, states and words is any function that reads its own result the same again; their targets, domains and steps are modelled in full. Numbers that do not parse, on which the code raises, are left out, as are the labels and mutes that go with a removed reaction.
- Entity lists of reactions that are stored as something else than a list are other texts; bucket bounds that do not parse, and legacy `sources` of rooms, are left out.
- OptionsListener.Entry.Settle: one update is followed to its end without other updates in between, under one environment; which differences are structural is a parameter there, and `RoomChanges.NeedsFullReload` for the topology.
- EditReloads.EditsReloadLightly: what migrations read of a room entry is any function that ignores room type, floor and geometry.
- PromotionDays.LocalDay: a local clock is a fixed offset from UTC, without daylight saving.
- Home Assistant plumbing, notifications, diagnostics, dashboards, audit scripts and the remaining modules.
