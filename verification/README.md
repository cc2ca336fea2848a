# Node control plane: a verified model

A control plane keeps remote nodes connected, lets them in by one-time codes, places sessions on
them, runs commands in their terminals and follows upgrades and messages. Around its network and
database calls it consists of stream filters, parsers and state machines. This project models
those in Dafny and proves what they promise over whole runs: for every way a stream is cut, every
interleaving of callers, and every order of late, repeated or stale events.

## How it is laid out

Each component has a value model (`State`, one function per operation, `Run` over a list of
events) and, where the source changes an object in place, a class whose methods are proved to do
exactly what the value model says. The theorems are lemmas about the value model. Calls of the
methods of a class are steps of its model; a connection or a terminal inside a registry is
changed through the methods of that registry.

| files | component |
|---|---|
| `Bytes`, `Options`, `Text` | byte strings, bounded prefixes and tails, Python's `strip` and `isspace` |
| `MarkerText`, `CollectorSpec`, `Collector`, `CollectorProofs`, `CollectorRuns`, `CollectorTheorems`, `CollectorStatus`, `CollectorCuts`, `CollectorEcho` | the command collector that finds a private end marker in terminal output cut at arbitrary places, and exactly which cuts it reads right |
| `Envelope`, `UpstreamReader` | Connect envelopes, their incremental decoder, and the reader of upstream messages |
| `Replay` | one-time codes, their acceptance window and the replay cache |
| `Connection` | one live connection: queue, ack waiters, stderr tails |
| `RegistrySpec`, `Registry` | the registry of live connections |
| `Admission` | codes and registry together: what a live connection's claim guarantees |
| `Binding` | the racing upsert of a session's placement |
| `MessageStatus`, `UpgradeTracker` | delivery status of messages, progress of upgrades |
| `HostTerminals`, `HostRegistrySpec`, `HostRegistry` | persistent host terminals, their replay buffer, cap and reaper |
| `Placement` | node selection |
| `Dotenv`, `DotenvProofs` | the dotenv rewriter |

Conventions: bytes are integers below 256; times are reals and the clock is a parameter; a Python
dictionary is a map, with its key order beside it where the order is observable; a future is a
value in a numbered list; one section of code between two awaits, one transaction, one insert or
one conditional UPDATE is one step. The keyed hash, `str.lower` and the rounded
product of a count and a float are parameters of any value.

## Where the code and its comments differ

- `terminal_commands.py:195-206` means to hold a complete marker back, but the second assignment
  to `_pending` replaces the first when the text before the marker ends in a marker prefix; the
  marker is then lost. `ConservationIffSpaced` says exactly for which output this can happen;
  both wrappers print a line break first, and `WrapperMarkerIsSpaced` shows that is enough.
- `terminal_commands.py:195-206` holds back a marker with whitespace behind it, because the number
  may come in the next chunk, but not a marker with whitespace and a sign. When a chunk ends
  between `-` and the first digit, the marker is shown and the command never ends
  (`SignCutLosesStatus`, `NegativeStatusLost`); `WithheldThroughoutIff` says that this is the only
  case. PowerShell prints negative codes (`terminal_commands.py:110-124`).
- `terminal_commands.py:271-283` reads the exit status from one chunk: a number cut in two is read
  short, and its second part is shown (`CutNumberIsReadShort`). `ReadsRightIff` gives the exact
  condition: no chunk ends behind the sign, and the chunk with the first digit carries the whole
  number and its line end. Of a cut number only zeros still give the right status.
- `terminal_commands.py:210-219` means to hide the echoed wrapper, but `run_command` sets the echo
  only after the collector is in place (`terminal_commands.py:470-485`). When bytes are withheld at
  that moment - a prompt that ends in an underscore is enough - the whole wrapper is shown:
  `EchoIsHiddenIff`, `UnderscoreShowsWrapper`.
- `envelope.py:16-18` calls a compression bit on a data frame a protocol error; the code passes
  such a frame on like any other, and so does the model (`DataFramesAreDelivered`).
- `task_message_status.py:102-120` leaves an error frame without an attempt, so one that comes again
  after a retry fails the new attempt: `ErrorRedelivery`, `RetryIsFailedAgain`.
- `terminal_bridge.py:652-661` announces a retirement by key, after an await; the key may belong to
  a new terminal by then: `AnnouncementHitsIff`, `AnnouncementCanHitSuccessor`.
- `upgrade_progress.py:187-191` calls the reconnect the only way a node-binary step completes; a
  "done" event completes it too (`CompletesOnlyBy`).
- `terminal_bridge.py:753-759` promises a full TTL after the work in a detached terminal ends; the
  clock restarts at the last overdue tick that saw the work. `KeptAfterWorkIff` says exactly which
  ticks take the terminal, `FullTtlCanBeBroken` gives a run that takes it early.
- `terminal_bridge.py:382-396` replays the buffer to a new browser; more than 256 chunks do not
  fit its queue, and the newest are the ones dropped (`Subscribe`; `OverfullReplay` is such a run).
- `connect_stream.py:147-175` validates a code with the time read before the first frame was
  awaited, so a stalled stream can come with an old time, and another node's claim may have pruned
  the cache meanwhile. One-time use survives a lag of 30 seconds, what the TTL has beyond the
  window, and no more: `LaterIsReused` and `LaterIsReusedWhileLive`.
- `store.py:825-827` calls the second writer harmless; with a deletion in between a call can still
  raise, exactly as `RaisesIff` says.
- `registry.py:956-968` accepts any connection; under another node's id it closes one that the
  registry goes on holding (`UnregisterKeepsIff`). The handler passes its own.
- `crypto.py:128-133` releases by key prefix, so a node id that continues another one with a bar
  is released with it (`ReleaseHitsIff`).

## Model

| member | source | states |
|---|---|---|
| CollectorStatus.WrapperInAnyChunking | terminal_commands.py:94-124 | End to end, for every number n up to 4300 digits: output, line break, marker, n printed in decimal, line break, prompt, in any chunks with the number whole in one: the exit status is n, and the browser is shown the output, its line break and the prompt |
| CollectorStatus.StatusInAnyChunking | terminal_commands.py:170-283 | The same for any whitespace behind the marker and any rest that does not go on with a digit: the status is n, the command is done on the chunk with the number and not before, the agent's copy is the first `cap` bytes |
| CollectorStatus.LiteralReadBack | terminal_commands.py:275-277 | A literal of leading zeros and a printed number is read as that number with its sign, up to 4300 digits, and refused beyond |
| CollectorStatus.DigitsSpellTheirNumber | terminal_commands.py:275-277 | Every string of digits is leading zeros and the print of the number it is read as |
| CollectorTheorems.ResultInAnyChunking | terminal_commands.py:170-283 | For every cut of output, marker and whitespace into chunks, with sign and digits in one chunk: the browser is shown exactly the output and what follows the number without the line end that came with it, the exit status is the number, the command is done on that chunk and not before, and the agent's copy is the capped output |
| CollectorCuts.ReadsRightIff | terminal_commands.py:170-283 | For every cut of a stream with one result, the sign, the number and the line end included: status and shown text are right if and only if no chunk ends between sign and number and the chunk with the first digit carries the whole number and its line end; the status alone is right also for a cut number of zeros |
| CollectorCuts.CutNumberIsReadShort | terminal_commands.py:271-283 | A number cut in two gives its first part as the status; the second part and all that follows are shown |
| CollectorCuts.SignCutLosesStatus | terminal_commands.py:195-206 | A chunk that ends between sign and number: the marker is shown and the command is never done, however much follows without another result |
| CollectorCuts.NegativeStatusLost | terminal_commands.py:110-124 | For example, the status -1 in two chunks |
| CollectorCuts.WithheldThroughoutIff | terminal_commands.py:195-206 | Over every run before the result, nothing that some later input would complete is ever shown if and only if no chunk ends between a sign and its first digit |
| CollectorCuts.WithheldNowIff | terminal_commands.py:195-206 | The same at one moment |
| MarkerText.MayCompleteIff | terminal_commands.py:242-245 | Some later input makes a result of a marker exactly when it is one, is cut off, is followed by whitespace only, or by whitespace and a sign |
| CollectorTheorems.ConservationIffSpaced | terminal_commands.py:188-208 | Output without a result is conserved under every chunking of every prefix if and only if no marker stands directly behind a non-empty proper marker prefix |
| CollectorRuns.RunConserves | terminal_commands.py:170-254 | Before the result, shown plus withheld bytes are the input without the wrapper echo; the echo is removed exactly when the stream starts with it; the withheld bytes are a proper marker prefix, a marker with whitespace, or an undecided echo; no marker that is cut off, or followed by whitespace only, was shown |
| CollectorEcho.EchoSetLate | terminal_commands.py:470-485 | The echo may be set at any moment while the collector waits: from then on what is shown and withheld grows by the bytes withheld at that moment and all that follow, without the echo exactly when these start with it |
| CollectorEcho.EchoIsHiddenIff | terminal_commands.py:210-225 | When the terminal prints the echo next, it is hidden if and only if nothing was withheld when it was set |
| CollectorEcho.UnderscoreShowsWrapper | terminal_commands.py:470-485 | For example, after a prompt that ends in an underscore the whole wrapper is shown |
| Collector.Collector.SetEcho | terminal_commands.py:485 | Sets the echo and nothing else |
| CollectorRuns.CaptureIsPrefix | terminal_commands.py:189-208 | For every chunking of any stream the agent's copy is the first `cap` bytes absorbed as output, truncated exactly when there were more, and the absorbed bytes are what the browser saw up to the marker |
| CollectorRuns.ScanFinds | terminal_commands.py:227-245 | The first result marker of the whole text is found in the bytes at hand, and none of it was released earlier |
| CollectorRuns.ScanCovers | terminal_commands.py:195-206 | After a scan without a result every marker that is cut off, or followed by whitespace only, lies among the withheld bytes |
| CollectorRuns.AbsorbCaptures | terminal_commands.py:256-269 | Absorbing chunk by chunk keeps the first `cap` bytes, their number, and the truncation flag |
| CollectorTheorems.StatusReadBack | terminal_commands.py:271-283 | Whitespace, an integer literal and a line end are read back as that integer and the text behind the line end |
| CollectorTheorems.LineEndDropped | terminal_commands.py:279-280 | Exactly one line end of any of the three kinds is dropped, and nothing when there is none |
| CollectorTheorems.LossyCut | terminal_commands.py:199-206 | Cutting right behind a marker that stands behind its own prefix loses the marker |
| CollectorProofs.FirstResultIsLeast | terminal_commands.py:227-245 | Skipping whole markers finds the leftmost result when no marker overlaps it |
| CollectorProofs.WithholdConservesIff | terminal_commands.py:199-206 | One withholding step keeps all its bytes exactly when the two kept pieces do not collide |
| CollectorProofs.WithholdCovers | terminal_commands.py:199-206 | A marker cut off by the end of the data, or followed only by whitespace, is withheld from its start |
| MarkerText.MarkerIsGood | terminal_commands.py:468 | Every generated marker is `__AGENT_CMD_`, hex digits and `__`, so non-empty, free of whitespace and signs, and not starting with a digit |
| MarkerText.WrapperMarkerIsSpaced | terminal_commands.py:100-124 | Whatever a command prints, as long as it holds no result and no marker out of place, the line break and marker that either wrapper prints behind it meet what the theorems ask for |
| MarkerText.BreakBeforeMarkerIsSpaced | terminal_commands.py:100-124 | A whitespace byte before every marker is enough for the spacing the theorems ask for |
| Collector.Collector.Feed | terminal_commands.py:170-208 | The in-place `feed` changes the fields and returns the bytes exactly as the value model |
| Collector.Collector.FindResultMarker | terminal_commands.py:227-245 | The search loop computes the specified first result |
| Collector.Collector.MarkerPrefixLen | terminal_commands.py:247-254 | The loop returns the longest proper marker prefix that ends the data |
| Collector.Collector.StripEcho | terminal_commands.py:210-225 | None exactly for a proper prefix of the echo, otherwise the data without a leading echo |
| Collector.Collector.Absorb | terminal_commands.py:256-269 | The bounded append on the fields |
| Collector.Collector.Finish | terminal_commands.py:271-283 | Status, future and rest as specified |
| Collector.Collector.Flush | terminal_commands.py:285-288 | Returns and forgets the withheld bytes, nothing else |
| Collector.Collector.Fail | terminal_commands.py:293-295 | Fails the future only while it waits |
| Envelope.StreamingRoundTrip | envelope.py:47-104 | For every list of frames, every chunking of their encodings and every interleaving of `feed` and `next_frame`: the frames returned are a prefix of the list, an idle decoder holds a strict prefix of the next encoding, and all frames are returned once all bytes are fed |
| Envelope.AnyInterleavingReadsTheBatch | envelope.py:77-104 | For arbitrary bytes the frames returned are a prefix of the batch reading, all of it when idle, with the residue in the buffer |
| Envelope.DecodeAllInverse | envelope.py:93-104 | Any bytes are the encoding of the frames read off them, followed by no complete envelope |
| Envelope.DecodeAllUnique | envelope.py:93-104 | That reading is the only one |
| Envelope.DecodeEncoded | envelope.py:47-104 | Decoding undoes encoding whatever follows |
| Envelope.EncodeDecoded | envelope.py:93-104 | Encoding undoes decoding: no byte is invented or dropped |
| Envelope.EnvelopeLayout | envelope.py:4-12 | On the wire: the flag byte, the length in four bytes with the most significant first, the payload |
| Envelope.EncodeFrameReadBack | envelope.py:47-49 | What `encode_frame` sends is read back with its payload and the low byte of its flags; it raises exactly when the payload does not fit the length prefix |
| Envelope.BigEndianRoundTrip | envelope.py:43-49 | The length prefix is read back for every payload length below 2^32 |
| Envelope.FrameDecoder.NextFrame | envelope.py:93-104 | Takes exactly one whole envelope off the front, or changes nothing |
| Envelope.FrameDecoder.Feed | envelope.py:80-82 | Appends to the buffer |
| UpstreamReader.ReaderRefinesBatch | connect_stream.py:94-130 | For every event sequence the messages up to the first None are the envelopes of the concatenated bodies before the first end-of-stream envelope; None comes exactly when that envelope, a last body chunk or a disconnect has arrived |
| UpstreamReader.ReaderInvertsClient | connect_stream.py:103-130 | What a client encodes is what the handler is given, however the body is cut |
| UpstreamReader.EndFrameEndsStream | connect_stream.py:109-117 | Data frames, then a frame with flag bit 2 set - any other flags, any payload - then any bytes, in any chunks: the handler is given exactly the payloads of the data frames, then the end |
| UpstreamReader.BodyEndEndsStream | connect_stream.py:118-130 | Data frames and a partial envelope, then the last body chunk or a disconnect: the payloads, then the end |
| UpstreamReader.EndIsNoted | connect_stream.py:103-130 | Once a call has given none, no later call takes an event off the channel or waits |
| UpstreamReader.DataFramesAreDelivered | connect_stream.py:109-117 | Frames without the end bit are all delivered in order, whatever their other flags |
| UpstreamReader.NextReadsBatch | connect_stream.py:103-130 | One call gives the next frame of the batch reading and disturbs nothing else |
| UpstreamReader.UpstreamReader.Next | connect_stream.py:103-130 | The receive loop terminates and computes the specified turn |
| Replay.AcceptsIff | crypto.py:82-97 | `validate` accepts exactly six decimal digits, with any whitespace around, that read as the truncated hash modulo a million of a step in the window, under a key without a claim of the last 180 seconds |
| Replay.CodeIsIff | crypto.py:67-73 | A text is the code of a step exactly when it is six decimal digits that read, left to right, as the truncated hash modulo a million |
| Replay.TruncateIs | crypto.py:69-71 | Section 5.3 of RFC 4226: the four bytes at the offset named by the low half of the last byte, most significant first, top bit cleared |
| Replay.DecimalSpells | crypto.py:72-73 | The n characters of a code spell the value modulo ten to the n |
| Replay.WindowIs | crypto.py:88-93 | A step is acceptable from 60 seconds before it starts until 60 seconds after it ends, a second earlier before 1970 |
| Replay.AttemptRecords | crypto.py:82-126 | What an attempt leaves in the cache, key by key: nothing without a match; else old claims dropped, others kept with their times, its own time recorded when accepted |
| Replay.ReleaseDrops | crypto.py:128-133 | A release drops the claims under the node's id and a bar, and keeps the others with their times |
| Replay.SuccessesFarApart | crypto.py:82-138 | Two accepted attempts with the same node and code and no release between are more than 180 seconds apart, less what the second one lags behind the attempts in between |
| Replay.OneStepOneUse | crypto.py:82-138 | One-time use: no time step authenticates a node twice while no release intervenes, provided the second attempt carries a time at most 30 seconds behind those of the attempts since the first (29 before 1970) |
| Replay.LaterIsReused | connect_stream.py:147-175 | The 30 seconds are exact: for every greater lag there is a run in which one step authenticates a node twice |
| Replay.WindowWidth | crypto.py:88-93 | One step is acceptable for less than 150 seconds, or 151 before 1970 |
| Replay.MatchStepIff | crypto.py:88-97 | A code matches exactly when it is the code of some step of the window |
| Replay.ReleaseHitsIff | crypto.py:128-133 | Releasing a node drops a claim exactly when the owner is that node or continues its id with a bar |
| Replay.ReleaseIsExact | crypto.py:128-133 | Ids without a bar are released exactly |
| Replay.ReplayCache.Claim | crypto.py:118-126 | Prunes, then claims unless the key is held |
| Replay.ReplayCache.Release | crypto.py:128-133 | Drops exactly the keys with the node's prefix |
| Replay.ReplayCache.Prune | crypto.py:135-138 | Drops exactly the claims older than the TTL |
| Replay.ReplayCache.Validate | crypto.py:82-97 | Accepts exactly a six-character code of the window whose claim is free |
| Connection.EveryWaiterIsAnswered | registry.py:308-324 | In every reachable state a pending waiter is completed with the ack that carries its frame id, cancelled by its timeout, failed by the close; the first two drop its registration and touch nothing else |
| Connection.DispatchWaits | service.py:3350-3361 | A dispatch on an open connection with fewer than 64 queued items adds a pending waiter under its id and its command at the back; on any other it adds neither |
| Connection.QueueIsInOrder | registry.py:190-201 | Over every run what the pump took and what is queued is what entered, in order |
| Connection.NoStrandedWaiter | registry.py:308-324 | In every reachable state a pending waiter is registered under its own frame id with an open connection; a closed connection holds no waiter and leaves none pending |
| Connection.CompletedOnce | registry.py:316-324 | One event changes at most a pending waiter, and completes it only by the ack with its own id, its own timeout, or the close |
| Connection.OutcomeIsFinal | registry.py:308-324 | Over any run the first completion of a waiter is the only one |
| Connection.LateAckIsIgnored | registry.py:319-324 | Unknown and repeated acks change nothing; a closed connection refuses every dispatch |
| Connection.Connection.Send | registry.py:190-201 | Fails exactly when closed or full, and then changes nothing |
| Connection.Connection.DispatchCommand | service.py:3350-3361 | Registers the waiter and enqueues the frame, or undoes the registration |
| Connection.Connection.DeliverAck | registry.py:319-324 | Completes the waiter registered under the ack's id |
| Connection.Connection.Close | registry.py:812-825 | Closes once: sentinel if there is room, every registered waiter failed, the table emptied |
| Connection.Connection.NoteStderr | registry.py:265-280 | The retained tail of every session is exactly the last 16384 bytes written since it was last forgotten |
| Connection.Connection.ForgetStderr | registry.py:289-291 | Forgets one session's tail |
| RegistrySpec.EveryRunIsSoundAndBalanced | registry.py:914-1002 | In every reachable state each key maps to an open connection of its node, every other connection ever registered is closed, and each node's arrivals equal its `on_disconnect` calls plus one if it is connected |
| RegistrySpec.BeatSurvivesReap | registry.py:204-206 | A node that beat within the timeout outlives a reap on the same open connection |
| RegistrySpec.SilenceIsReaped | registry.py:986-1002 | A node silent for longer, since its last beat or its connect, does not |
| RegistrySpec.RegisterConnects | registry.py:941-954 | A registered node is connected by its new open connection, and nobody else's changes |
| RegistrySpec.RemovalForgets | registry.py:956-975 | A forced disconnect and the teardown of the live connection close it, forget the node and call the hook with it once |
| RegistrySpec.ReapLeavesTheLive | registry.py:986-1002 | Right after a reap the connected nodes are exactly those the dispatch check accepts at that moment, with their connections untouched |
| RegistrySpec.ReapEachKeepsExactly | registry.py:994-1001 | A pass over any snapshot of the keys removes exactly the stale nodes in it |
| RegistrySpec.LivenessAgreesIff | service.py:3823-3830 | The reaper and the dispatch check disagree exactly when the last heartbeat predates the connect and only one of the two is within the limit |
| RegistrySpec.BeatsFollowConnect | registry.py:204-206 | With a clock that does not run backwards no heartbeat predates its connect |
| Registry.Registry.Register | registry.py:941-954 | Replaces and closes a previous connection without firing the hook |
| Registry.Registry.Unregister | registry.py:956-968 | For any node id and any connection: forgets the node only if this connection is still its registered one; closes the connection in any case |
| RegistrySpec.UnregisterKeepsIff | registry.py:956-968 | A teardown keeps the registry in order exactly when the id is the connection's own, or the connection is closed or was never registered |
| Registry.Registry.NoteHeartbeat | registry.py:204-206 | A heartbeat moves only the liveness of its connection |
| Registry.Registry.Disconnect | registry.py:970-975 | Closes, forgets and fires, if connected |
| Registry.Registry.ReapStale | registry.py:986-1002 | Removes the stale connections and returns their nodes in the order the hook fired |
| Admission.NoReuseWhileLive | connect_stream.py:175-210 | No code is accepted twice for one time step while the connection it opened is live, provided the node id carries no bar and the second attempt is at most 30 seconds behind those since the connection was admitted |
| Admission.LiveCodeIsRefused | service.py:540-560 | In every reachable state the step that admitted a live connection opens nothing more for its node, to attempts at most 30 seconds behind those since the connection was admitted |
| Admission.ClaimStays | crypto.py:104-111 | While the connection opened by an attempt lives, its claim is held with its time, or some attempt since then came more than a TTL after it |
| Admission.LaterIsReusedWhileLive | connect_stream.py:147-175 | For every greater lag there is a run in which a stalled stream is let in by the step that opened the live connection |
| Admission.GrantIsRecorded | connect_stream.py:210 | An accepted attempt opens the next connection, under the credentials it presented |
| Admission.EveryConnectionWasAdmitted | connect_stream.py:175-210 | Every connection of a run was opened by an accepted attempt |
| Admission.EveryRunGuards | crypto.py:104-111 | Over every run, in any order of times, the claim of each live connection is held with its time, or some attempt since its admission came more than a TTL after it |
| Admission.StaleTeardownFreesNothing | registry.py:956-968 | The teardown of a superseded stream frees no claim and forgets no node |
| Admission.RemovalFreesExactly | service.py:559-560 | Every registry step - teardown, forced disconnect, reap - frees exactly the claims of the nodes that were connected before it and are not after it, and the other claims keep their times |
| Admission.LiveTeardownFreesOwn | registry.py:956-968 | The teardown of the live stream frees the node's claims and no others |
| Admission.DisconnectFreesOwn | registry.py:970-975 | So does a forced disconnect |
| Binding.RacingBindersSucceed | store.py:798-854 | Under every schedule of any number of callers, none with valid arguments raises, each is done after at most three steps, and invalid arguments raise at once |
| Binding.EveryStepMakesProgress | store.py:828-854 | Every step of a running caller shortens the race |
| Binding.FinishedRace | store.py:803-854 | At the end exactly the calls with a session id and a node id have committed, each once, and the row carries the last committer's strings, each stripped in its own field, and its revisions |
| Binding.LastFilledWins | store.py:812-842 | At every moment provider, model, mode and status are each the last value that is not empty once stripped of that same field of a committed request, or the value before the race |
| Binding.RowOnlyGrows | store.py:812-842 | The row never disappears and none of the four fields goes from filled to empty |
| Binding.RaisesIff | store.py:828-854 | With deletions anywhere in the race: a valid call raises if and only if it found no row, lost its insert, the row was deleted and not rewritten before its second lookup, and was written again before its second insert |
| Binding.HarmlessDeletions | store.py:828-854 | Deletions outside the gap between lost insert and second lookup never make a valid call raise |
| Binding.DeletionCanRaise | store.py:846-854 | A race of three calls and one deletion in which the first call raises |
| MessageStatus.EventTakesEffect | task_message_status.py:206-291 | An event takes effect exactly when it names a message whose row has the event's attempt and allows the move; then that row has the new status and a failure's error, and nothing else changes |
| MessageStatus.EventLeadsTo | task_message_status.py:46-60 | The status each kind of event and word leads to, and those that lead nowhere |
| MessageStatus.NodeMoves | task_message_status.py:33-43 | The moves node events can make, status by status |
| MessageStatus.ErrorFails | task_message_status.py:102-203 | An error frame fails the messages in flight - the named one, or all - with its reason, and no other |
| MessageStatus.EveryWriteIsAnEdge | task_message_status.py:33-43 | Whoever writes, every status change is an edge of the table |
| MessageStatus.CompletedIsAbsorbing | task_message_status.py:33-43 | A completed message stays completed |
| MessageStatus.AtMostFourWrites | task_message_status.py:227-278 | Between gateway moves at most four node writes succeed, fewer from later statuses |
| MessageStatus.RedeliveryIsInert | task_message_status.py:206-278 | An event accepted once never takes effect again, however often redelivered, also across gateway moves that raise the attempt on retry |
| MessageStatus.ErrorTakesEffectIff | task_message_status.py:102-203 | An error frame changes something if and only if a message it addresses is in flight |
| MessageStatus.ErrorRedelivery | task_message_status.py:102-203 | Delivered again, an error frame fails exactly the addressed messages in flight by then, and each of these was moved by the gateway since |
| MessageStatus.ErrorRedeliveryIsInert | task_message_status.py:102-203 | So between gateway moves it changes nothing |
| MessageStatus.RetryIsFailedAgain | task_message_status.py:102-203 | After a retry with a raised attempt it fails the new attempt |
| MessageStatus.MessageTable.RecordMessageStatus | task_message_status.py:206-291 | The conditional row update, with one history line exactly when it matched |
| MessageStatus.MessageTable.FailInflight | task_message_status.py:102-203 | Closes out exactly the in-flight rows addressed - all of the session when the id is missing or empty - with one history line each |
| UpgradeTracker.EventIsShown | upgrade_progress.py:103-134 | An event that is neither stale nor late is shown field by field; "done" and "failed" finish the step |
| UpgradeTracker.AckIsHeard | upgrade_progress.py:136-160 | A refused ack fails an unfinished step with its error or a standard text; a positive one completes the runtime step and is a message for the node step |
| UpgradeTracker.WaitingIsShown | upgrade_progress.py:162-185 | A timeout leaves a message, a lost connection marks the node step; a finished step is left alone |
| UpgradeTracker.ReconnectIsHeard | upgrade_progress.py:187-209 | A reconnect completes an unfinished node step exactly when the versions agree |
| UpgradeTracker.InitStartsOver | upgrade_progress.py:91-101 | A new upgrade starts from nothing, under its own frame id and target |
| UpgradeTracker.NormalizedIs | upgrade_progress.py:187-203 | Versions that differ in outer whitespace and leading letters v count as one |
| UpgradeTracker.StepNames | upgrade_progress.py:91-97 | "runtime" and "node" name the steps; any other name changes nothing |
| UpgradeTracker.EverySnapshotIsConsistent | upgrade_progress.py:91-209 | In every reachable state: completion time exactly when finished, stage "done" exactly when completed, and the retained lines are the last twenty appended since `init` |
| UpgradeTracker.FinishedStaysFinished | upgrade_progress.py:121-123 | Until the next `init` a finished step stays finished |
| UpgradeTracker.StaleEventIsIgnored | upgrade_progress.py:119-120 | An event with another non-empty frame id changes nothing |
| UpgradeTracker.CompletesOnlyBy | upgrade_progress.py:130-209 | A step completes exactly by a "done" event, a matching reconnect, or, for the runtime step only, a positive ack |
| UpgradeTracker.StepOnSlot | upgrade_progress.py:60-64 | An operation touches only the node and step it names |
| UpgradeTracker.UpgradeTracker.Init | upgrade_progress.py:91-101 | Starts a fresh snapshot |
| UpgradeTracker.UpgradeTracker.Apply | upgrade_progress.py:103-134 | Folds one event in, or ignores it |
| UpgradeTracker.UpgradeTracker.FinalizeFromAck | upgrade_progress.py:136-160 | Authoritative for the runtime step, a message for the node step |
| UpgradeTracker.UpgradeTracker.NoteAckTimeout | upgrade_progress.py:162-171 | A message only |
| UpgradeTracker.UpgradeTracker.MarkRestarting | upgrade_progress.py:173-185 | Marks an unfinished node step |
| UpgradeTracker.UpgradeTracker.FinalizeFromReconnect | upgrade_progress.py:187-209 | Completes the node step when the versions agree |
| HostTerminals.TrimIsLongestSuffix | terminal_bridge.py:467-471 | The replay buffer is the longest suffix of chunks within the limit |
| HostTerminals.TrimOfTrim | terminal_bridge.py:467-471 | Trimming chunk by chunk equals trimming the whole output |
| HostTerminals.PersistentTerminal.AppendReplay | terminal_bridge.py:467-471 | The buffer stays exactly that suffix of everything emitted, and its size the sum |
| HostTerminals.PersistentTerminal.Emit | terminal_bridge.py:427-446 | A chunk goes to the replay and the browser; a browser with a full queue is dropped and the detach clock starts |
| HostTerminals.PersistentTerminal.Subscribe | terminal_bridge.py:382-396 | Attaches one browser, ends the stream of an older one and stops the detach clock; the new queue starts with the replay as far as it fits, all of it exactly when it has at most 256 chunks |
| HostTerminals.DismissedIsTold | terminal_bridge.py:382-421 | A browser that is replaced or closed with room in its queue is told the end, behind what it has still to take, and nobody else is |
| HostTerminals.OverfullReplay | terminal_bridge.py:389-392 | A reachable terminal with more chunks than that, whose newest one the browser misses |
| HostTerminals.PersistentTerminal.Unsubscribe | terminal_bridge.py:398-403 | Detaches only the queue that is still attached |
| HostTerminals.PersistentTerminal.Close | terminal_bridge.py:413-421 | Closes once, ends the stream of the browser and detaches it; a second call changes nothing |
| HostTerminals.PersistentTerminal.PumpEnds | terminal_bridge.py:447-465 | Closes the terminal, and ends the stream of its browser, only if its session ended |
| HostRegistrySpec.EveryRunWithinCap | terminal_bridge.py:608-779 | Over every run: the open terminals ever created for a node stay within the cap, the table knows every open terminal, and each is retired at most once, closed and out of the table |
| HostRegistrySpec.OpensIff | terminal_bridge.py:608-650 | An open terminal is kept; else there is a new one exactly when the node is reachable and has fewer open terminals than the cap, and else nothing changes |
| HostRegistrySpec.ExitFreesSlot | terminal_bridge.py:447-465 | A shell's exit closes its terminal and frees its slot under the cap, and no other |
| HostRegistrySpec.DeleteForgets | terminal_bridge.py:652-662 | A delete closes the terminal, forgets the key and owes one announcement |
| HostRegistrySpec.ReapTakesExactly | terminal_bridge.py:739-779 | A tick takes an open terminal exactly when it has been detached for the TTL and runs no work; it takes every closed one and leaves the others open in place |
| HostRegistrySpec.KeptAfterWorkIff | terminal_bridge.py:739-762 | Through any later ticks a terminal that was found busy is kept if and only if each comes less than a TTL after the last tick that restarted its clock, whenever the work ended |
| HostRegistrySpec.BusyTerminalGetsNewClock | terminal_bridge.py:753-762 | An overdue tick that finds work sets the clock to its own time |
| HostRegistrySpec.FullTtlCanBeBroken | terminal_bridge.py:753-762 | A run whose reaper takes the terminal less than a TTL after its work ended |
| HostRegistrySpec.AnnouncementHitsIff | terminal_bridge.py:652-661 | In every reachable state a due announcement names a key in use if and only if a terminal created later is open under it |
| HostRegistrySpec.AnnouncementCanHitSuccessor | terminal_bridge.py:652-661 | Such a run: delete, open again, announce |
| HostRegistry.HostRegistry.GetOrCreate | terminal_bridge.py:608-650 | The open terminal, or a new one below the cap, or an error without change |
| HostRegistry.HostRegistry.CountActive | terminal_bridge.py:624-628 | The number of open terminals of the node |
| HostRegistry.HostRegistry.Delete | terminal_bridge.py:652-662 | Pops and closes, owing one retirement |
| HostRegistry.HostRegistry.Announce | terminal_bridge.py:600-606 | Settles one owed retirement |
| HostRegistry.HostRegistry.RemoveFinished | terminal_bridge.py:725-733 | Forgets a finished terminal only if the table still holds that object, and exactly then calls the hook with its key |
| HostRegistry.HostRegistry.Attach | terminal_bridge.py:382-396 | A browser attaches: the clock of that terminal stops, nothing else changes |
| HostRegistry.HostRegistry.Detach | terminal_bridge.py:398-403 | The attached browser leaves: the clock starts; any other queue changes nothing |
| HostRegistry.HostRegistry.Emit | terminal_bridge.py:427-446 | Output changes nothing in the registry, unless it drops a stalled browser |
| HostRegistry.HostRegistry.Exit | terminal_bridge.py:447-465 | The shell's exit closes that terminal and no other |
| HostRegistry.HostRegistry.Reap | terminal_bridge.py:739-773 | One tick: new clocks, pops and closes as specified |
| Placement.SelectNode | service.py:3622-3666 | The explicit path as specified; automatic selection returns the first node in registry order that the explicit path accepts, and fails exactly when it accepts none |
| Placement.ExplicitIff | service.py:3594-3651 | A node is accepted exactly when it is approved, live, able, and below every configured limit |
| Placement.ChosenHasRoom | service.py:3604-3619 | A selected node has room for one more session under every configured limit |
| Placement.DriverDecides | service.py:3832-3850 | Docker sessions go only to nodes with docker, local ones to nodes that offer their provider, sessions of any other driver nowhere |
| Placement.ModeDecides | service.py:3853-3884 | The first editor of the session's provider must list its mode |
| Placement.RefusalIs | service.py:3594-3651 | The error of an explicit choice is the first that applies, in the order of the checks |
| Placement.ReapAgreesWithSelection | service.py:3823-3830 | At any moment the nodes a reap would leave are exactly the connected ones that selection takes for live |
| Placement.ChosenOffersMode | service.py:3853-3884 | A session that names a mode only goes to a node whose editor for that provider lists it |
| DotenvProofs.LineIsRewritten | dotenv_loader.py:38-45 | A line that assigns an updated key becomes key, equals sign and new value; any other line is kept as it is |
| DotenvProofs.KeyOfIff | dotenv_loader.py:24 | A line assigns a key exactly when it is whitespace, the key, whitespace, an equals sign and anything |
| DotenvProofs.SeparatorsIff | dotenv_loader.py:46-50 | Behind the old lines an empty line stands exactly where the line before it is not blank |
| DotenvProofs.RewriteIsFaithful | dotenv_loader.py:32-50 | Every old line keeps its place, changed only if it assigns an updated key; behind them come only separators and the missing keys, in order |
| DotenvProofs.EveryAssignmentIsNew | dotenv_loader.py:38-45 | After the rewrite every line that assigns an updated key carries its new value |
| DotenvProofs.SecondRewriteChangesNothingIff | dotenv_loader.py:32-52 | A second rewrite of the file with the same mapping changes nothing if and only if every key is an identifier |
| DotenvProofs.AssignmentReadBackIff | dotenv_loader.py:24 | A written assignment is read back under its key exactly when the key is an identifier |
| Dotenv.SplitAtBreak | dotenv_loader.py:35 | A text is read line by line at any line break; carriage return and line feed count as one |
| Dotenv.SplitLastLine | dotenv_loader.py:35 | A last line without a break counts |
| Dotenv.LineBreaks | dotenv_loader.py:35 | The ten characters `splitlines` breaks at |
| Dotenv.BodySnoc | dotenv_loader.py:52 | Every line written is followed by one line break |
| Text.StripIs | dotenv_loader.py:48 | `strip` drops the whitespace at both ends and nothing else |
| Text.AsciiSpaces | dotenv_loader.py:48 | The ASCII characters that count as whitespace |
| Dotenv.SplitBody | dotenv_loader.py:52 | Splitting the written text gives the written lines |
| Dotenv.UpdateEnvVars | dotenv_loader.py:32-52 | The two loops compute the specified text |

## Left out

- Network, ASGI sending, web sockets, HTTP proxying and tunnels, iOS, builds and editors: plumbing and repetitions of patterns modelled once.
- Protobuf: messages are opaque bytes, and a payload that does not parse is not distinguished.
- The keyed hash, sealing of secrets, base32 and random ids: parameters or absent; the theorems hold for every hash.
- `ActiveTerminal.run_command`, its timeout handling, and the stripping of late markers of commands that were given up: the collector is modelled up to `flush` and `fail`.
- Decoding collected bytes to text, and the wording of console messages.
- Time columns of message rows, notifications, and the other tables of the ledger.
- Binding.LastFilledWins: does not cover deletions during the race, which empty the row; `RaisesIff` does.
- Steps of other tasks between authentication and registration: claim and registration are one step.
- Changes of ledger or registry while `_select_node` awaits the ledger: the call sees one state.
- Sinks, tunnels, terminals and job queues of a connection: torn down by `close` in the same way as the ack waiters.
- Editor-workspace terminals: the host-terminal registry has the same shape with a cap and retirements besides.
- CollectorCuts.ReadsRightIff: does not cover numbers of more than 4300 digits, which CPython refuses to convert; `ResultInAnyChunking` says the status then stays unset.
- Writing the dotenv file: temporary file, rename and the fallback for bind mounts.
