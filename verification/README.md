# Verified model of TeleDAP

TeleDAP lets an MCP client drive a debug adapter over the Debug Adapter Protocol (DAP). This
project models its stateful core in Dafny and proves what the parts promise. `dafny verify
dfyconfig.toml` checks all of it.

- **Framing** (`ByteText`, `Framing`, `HeaderText`, `FrameStream`): the incremental `Content-Length`
  parser and printer over a buffer consumed in place, and the loop that appends what arrived and
  decodes until the codec waits or fails. Statements are about arbitrary byte streams cut at
  arbitrary points. `HeaderText` gives header text, lines, white space and numbers their own
  definitions. The JSON library is a pair of functions; only round trips assume that parsing undoes
  serialising.
- **Correlation** (`Protocol`, `Correlation`, `CorrelationRuns`, `CorrelationOutcomes`, `DapClient`,
  `Wire`): any number of concurrent `send_request` and `send_request_nb` calls as a transition
  system, each call cut at every lock and await, against an adapter that may reorder, duplicate or
  invent responses. The class `DapClient` has one method per atomic section, each performing one
  step of that system. `Wire` composes it with the codec: what a peer reads from the client's stdin
  bytes.
- **Session** (`SessionState`, `SessionModel`, `SessionRuns`, `SessionHistory`, `SessionRaces`,
  `SessionDetails`, `DebugSession`): the five-state machine with the halt details, caches, adapter
  kind and child process that must agree with it. Every method and event handler is a script of
  atomic steps. `SessionRaces` interleaves the steps of any number of scripts in any order and
  `SessionDetails` says when halt details and breakpoints survive that; `SessionRuns` and
  `SessionHistory` are about runs of uninterrupted calls, which are shown to be one of the
  interleavings. `DebugSession` is the imperative session.
- **Path mapper** (`PathText`, `PathLaws`, `PathMapper`): longest-alias translation between relative
  and absolute paths and back, on Unix path text, with `Path` components, `starts_with`,
  `strip_prefix` and `join` written out.
- **Caches and the OpenOCD client** (`SortBy`, `VariableCache`, `BreakpointCache`, `OpenOcd`,
  `OpenOcdResults`): each refines a simple mathematical object: a last-writer-wins log, the latest
  update of each source, and a queue whose lines are conserved.

Hash map iteration order, the file system probe, the clock, lower-casing, and whether a process
spawns or a request is answered are parameters of the operations that depend on them.

## What turned out different from the documentation

- Chunking does matter for a stream with a header longer than 4097 bytes including its terminator:
  the 4 KiB guard fires only if the terminator has not arrived yet. `ChunkingIndependentIffTame` gives
  the exact streams on which it does not matter.
- `state_watcher` is documented to yield the current state plus every transition
  (`crates/debug-session/src/session.rs:97-100`). The channel's first receiver is dropped at
  construction, and a send without receivers stores nothing, so a late subscriber can see an older
  state: `LateSubscriberIsStale`. `LiveWatcherIsCurrent` says what does hold.
- Handles in the variable cache are only as fresh as the scheduling: `StaleHandlesAreReachable` gives
  the interleaving that caches the variables of a past halt, and `FreshIffInTime` exactly when this
  does not happen. Only leaving a halt empties the cache, so such handles can still be found in the halt
  of the next session (`StaleHandlesOutliveTheirSession`).
- An `initialized` event can overtake the answer to `initialize`, which then reports an error although
  the session is initialized (`InitializeCanLoseItsTransition`). `GatedTransitionRefusedIff` says exactly
  when a call that passed its gate is refused its transition.
- A `terminated` event can leave a starting session connected without a process, or a restarted one
  disconnected with a process (`ConnectedWithoutProcess`, `DisconnectedWithProcess`).
  `AgreesIffSettles` says exactly which steps of a run make state and process disagree for good; that
  every connecting step finds the process is sufficient but not necessary (`ProcessNeedNotBeFound`).
- After a timeout the next OpenOCD command can receive the late answer
  (`TimeoutMisdirectsTheNextAnswer`). `OwnAnswerIff` says exactly when a command gets its own answer in
  any run, and `OwnAnswerIffNoTimeoutBefore` when nothing was evicted.
- A command can time out although its whole answer lies in the buffer: it looks there only after a
  notification, and a notification nobody waits for is lost (`AnswerCanBeMissed`). `HearsIffTold` says
  exactly in which runs no command is left waiting beside such lines.
- An alias that ends in '/' does not survive the round trips, though `resolve` has a branch for it:
  `reverse` appends another '/', and `resolve` then takes the remainder for an absolute path and drops
  the directory. `TrailingSlashLosesTheDirectory` gives the texts, `TrailingSlashExample` the case of
  "src/" for "/p/src". `ResolveAfterReverse` and `ReverseAfterResolve` are exact for aliases of any text,
  with backslashes, empty segments, or absolute.
- Halt details can disagree with the last stop. A `stopped` event between the answer to a resuming call
  and the end of that call is lost, and the session runs without details (`ResumeLosesStop`); one that is
  overtaken by a whole resuming call halts the session without details (`LateStopHasNoDetails`).
  `DetailsIffInOrder` says exactly which accepted transitions of a run do this.
- Breakpoints can outlive their session: a `terminated` event between the answer to `setBreakpoints` and
  the update of the cache leaves them there, and the next session starts with them
  (`BreakpointsSurviveRestart`). `BreakpointsIffInPlace` says exactly which steps do this.
- A second `stopped` event during a halt replaces the details but is no transition, so the handles
  cached before it stay in the cache: `OneHaltManyStops`.
- The sender of a waiting call is never dropped while the client lives, so the branch of
  `send_request` that reports a closed stream is never taken: `SenderIsNeverDropped`.
- `get_threads` is documented as valid only when halted (`crates/debug-session/src/session.rs:531`), but
  the gate also admits a running session (`crates/debug-session/src/gating.rs:51`). Only that call itself:
  `assemble_context`, which begins with it, is refused while running by the dispatcher's own gate.
- The `thread` event handler reads the key `thread_id`, where DAP's `thread` event has `threadId`. The
  model takes the thread that key yields as the event's parameter.

## Model

| member | source | states |
|---|---|---|
| ByteText.FindSubsequence | crates/dap-codec/src/lib.rs:166-173 | the result is the first position at which the needle occurs, or there is none |
| ByteText.ParsePrintInverse | crates/dap-codec/src/lib.rs:79-82 | parsing the decimal digits printed for any 64-bit length gives it back |
| Framing.DecodeIsStable | crates/dap-codec/src/lib.rs:54-127 | a decoded message, or an error found after the terminator, is unchanged by any bytes appended |
| Framing.DecodeFromPrefix | crates/dap-codec/src/lib.rs:100-117 | a message that lies within a prefix of the buffer is already decoded from the prefix |
| Framing.HeaderReadsBack | crates/dap-codec/src/lib.rs:76-99 | the header text written for a length is read back as that length, unless the frame limit refuses it |
| Framing.FrameRoundTrip | crates/dap-codec/src/lib.rs:148-156 | an encoded frame, whatever follows it, decodes to its message and is consumed exactly |
| Framing.PartialFrameWaits | crates/dap-codec/src/lib.rs:58-108 | on every strict prefix of a frame within the limit the decoder waits and neither guard fires |
| Framing.HeaderIsShort | crates/dap-codec/src/lib.rs:151 | a frame header for any 64-bit length has at most 40 bytes |
| Framing.DapCodec.Decode | crates/dap-codec/src/lib.rs:54-127 | the in-place decoder returns what the specification says; only a message moves the buffer, past its frame |
| Framing.DapCodec.Encode | crates/dap-codec/src/lib.rs:133-156 | appends exactly one frame, or leaves the buffer alone if the message does not serialise |
| HeaderTexts.ValidIffEncoded | crates/dap-codec/src/lib.rs:72-73 | the bytes accepted as UTF-8 are exactly the encodings of sequences of Unicode scalar values |
| HeaderTexts.TrimMeaning | crates/dap-codec/src/lib.rs:76-82 | trimming cuts white space off both ends and leaves none there |
| HeaderTexts.ParsesIffNumeral | crates/dap-codec/src/lib.rs:80-82 | the texts that parse as a number are exactly an optional plus sign, any zeros, and its decimal digits |
| HeaderTexts.LinesOfJoined | crates/dap-codec/src/lib.rs:76-77 | non-empty lines without carriage return or line feed, joined by both, are found again |
| HeaderTexts.FirstLengthIff | crates/dap-codec/src/lib.rs:76-88 | the header's length is n exactly if some line reads as n and no line before it reads as any number |
| HeaderTexts.LineReadsIff | crates/dap-codec/src/lib.rs:77-82 | a line reads as n exactly if it is the header's name and a numeral of n with white space around them |
| HeaderTexts.FrameText | crates/dap-codec/src/lib.rs:148-156 | an encoded frame is the text "Content-Length: ", the decimal length, two line ends, and the body |
| HeaderTexts.FrameWithHeaders | crates/dap-codec/src/lib.rs:54-127 | a frame with any further header lines around its length line, none before it reading as a length, decodes to its message and is consumed exactly |
| HeaderTexts.VerdictWithoutHeader | crates/dap-codec/src/lib.rs:56-69 | without a terminator the decoder waits, and fails beyond 4096 bytes |
| HeaderTexts.VerdictOfHeader | crates/dap-codec/src/lib.rs:72-88 | with one, it fails as not UTF-8 or without a length exactly if the header is not, or no line reads as one |
| HeaderTexts.VerdictOfLength | crates/dap-codec/src/lib.rs:91-127 | otherwise the first length decides: too large, waiting for the body, a body that does not parse, or the message |
| FrameStream.ChunkingIndependence | crates/dap-codec/src/lib.rs:54-127 | a stream in which each terminator ends within 4097 bytes of its frame's start gives the same messages and verdict in every chunking |
| FrameStream.ChunkingIndependentIffTame | crates/dap-codec/src/lib.rs:58-71 | exactly those streams decode independently of how they are cut |
| FrameStream.StreamRoundTrip | crates/dap-codec/src/lib.rs:54-156 | whole encoded frames and a partial one, in any chunking, decode to exactly the messages and leave the partial frame |
| FrameStream.EncodedStreamNeverFails | crates/dap-codec/src/lib.rs:54-156 | at every moment a reader of encoder output has a prefix of the messages and no error, and at the end all of them and an empty buffer |
| FrameStream.BufferBound | crates/dap-codec/src/lib.rs:58-108 | with chunks of at most K bytes a waiting buffer holds at most 4096 + K + max_frame_size bytes, and no computed frame end exceeds that |
| FrameStream.DapBufferBound | crates/dap-codec/src/lib.rs:92-108 | the DAP decoder's frame limit alone gives that bound |
| FrameStream.FrameReader.Receive | crates/dap-client/src/client.rs:237-240 | one arrival appends to the buffer and drains it, as the stream specification says |
| CorrelationRuns.AnsweredOnceAndByItsOwn | crates/dap-client/src/client.rs:240-255 | in every interleaving sequence numbers are distinct, pending keys are below the counter and belong to waiting calls, and each call gets at most one response, whose request_seq is its own number |
| CorrelationRuns.OutcomesAreFinal | crates/dap-client/src/client.rs:370-405 | whatever happens later, a call's request, its delivered response and its result never change |
| CorrelationRuns.SenderIsNeverDropped | crates/dap-client/src/client.rs:397-404 | no call ever takes the branch for a dropped sender |
| CorrelationRuns.NoLostResponse | crates/dap-client/src/client.rs:248-255 | if the adapter answers only requests on the wire and each once, only answers to fire-and-forget requests find no pending entry, across restarts too |
| CorrelationOutcomes.CallsAreAsked | crates/dap-client/src/client.rs:328-345 | in every run the i-th call carries number i + 1 and exactly the command and arguments the i-th caller gave |
| CorrelationOutcomes.WritesItsFrame | crates/dap-client/src/client.rs:354-368 | from any run, a call that may lock a started adapter's stdin writes its frame in any pieces: exactly that frame is added to the bytes and that message to those sent, and the call then waits or, fire-and-forget, has returned |
| CorrelationOutcomes.AnswerArrives | crates/dap-client/src/client.rs:240-255 | from any run, a waiting call without an answer gets the first response to its number and returns it, and no other call is touched |
| CorrelationOutcomes.RequestIsAnswered | crates/dap-client/src/client.rs:316-405 | from any run with a started adapter and a free lock a request can be taken, written in any pieces and answered, and its caller gets that answer |
| CorrelationOutcomes.FirstRequest | crates/dap-client/src/client.rs:316-405 | so the first request to the first adapter can be answered |
| CorrelationOutcomes.ArgumentsFail | crates/dap-client/src/client.rs:330-331 | arguments that do not serialise end their call with its number used up and nothing registered |
| CorrelationOutcomes.WriteFails | crates/dap-client/src/client.rs:363-364 | a failed write ends its call and frees the lock, and leaves the entry of a waiting call in the pending map |
| CorrelationOutcomes.ReturnedIff | crates/dap-client/src/client.rs:354-405 | in every run a call has returned with an outcome exactly if the step that causes it was taken: not connected without a stdin at the lock, not encoded without a frame then, a failed write, arguments that do not serialise, a finished fire-and-forget write, or its answer |
| CorrelationOutcomes.ResponsesAreCounted | crates/dap-client/src/client.rs:240-255 | in every run each response was delivered, named no pending request, or came after its caller gave up |
| CorrelationOutcomes.BrokenIff | crates/dap-client/src/client.rs:363-364 | in every run the current stdin counts as broken exactly if a write failed inside a frame since its adapter started |
| DapClientModel.DapClient.TakeSeq | crates/dap-client/src/client.rs:328 | allocates the next number and performs that step of the transition system |
| DapClientModel.DapClient.Register | crates/dap-client/src/client.rs:347-352 | inserts the waiter before anything is written |
| DapClientModel.DapClient.LockStdin | crates/dap-client/src/client.rs:355-362 | takes the stdin lock, or fails when not started or not encodable, leaving the pending entry |
| DapClientModel.DapClient.WriteSome | crates/dap-client/src/client.rs:363-364 | writes the next bytes of the call's frame under the lock |
| DapClientModel.DapClient.Dispatch | crates/dap-client/src/client.rs:242-255 | takes the pending entry of the response's request_seq, if any, and completes that call |
| Wire.PeerReadsRequestsInWriteOrder | crates/dap-client/src/client.rs:355-365 | if no write on the current stdin broke off and the requests written fit the peer's limit, a peer decoding the bytes in any chunking reads exactly the sent requests in write order, with distinct numbers |
| SessionStates.TablesAgree | crates/debug-session/src/state.rs:35-64 | the two transition tables agree, and every gate admits only states its operation's transition is legal from |
| SessionStates.OperationsByState | crates/debug-session/src/gating.rs:95-105 | which operations each state allows |
| SessionModel.EffectIsWholeScript | crates/debug-session/src/session.rs:198-490 | each method and handler, run without interruption, does exactly its one-step effect, result included |
| SessionRuns.PartsAlwaysAgree | crates/debug-session/src/session.rs:259-364 | after any calls and events in any order: Disconnected exactly if the client has no process, breakpoints only once initialized, adapter kind known unless Disconnected |
| SessionRuns.RestartAlwaysWorks | crates/debug-session/src/session.rs:353-364 | a disconnected session can be started; any other can be shut down, which leaves no process, breakpoints or variables |
| SessionRuns.HaltAgreesWithHistory | crates/debug-session/src/session.rs:656-663 | in a halt the details are what the last stopped event recorded, without the threads reported exited since; ReasonByHistory and ThreadStoppedByHistory say what that is |
| SessionRuns.OneHaltManyStops | crates/debug-session/src/session.rs:639-674 | however many stopped and thread events come during one halt, the details are those of the last stop of the whole history, and nothing else changes: no transition is recorded and the cached handles stay |
| SessionRuns.ContextTakesInAll | crates/debug-bridge/src/handlers/inspect.rs:204-328 | without interruption the nested loops cache the variables of all scopes of all frames of the threads, in visiting order, stamped with the current halt; outside a halt nothing |
| SessionRuns.ThreadStoppedByHistory | crates/debug-session/src/state.rs:90-92 | in a halt a thread counts as stopped exactly if the last stopped event said all threads, or named it and it has not exited since |
| SessionRuns.HandlesAreFresh | crates/debug-session/src/session.rs:228-234 | without interruptions the variable cache is empty outside a halt and holds only entries asked for in this halt |
| SessionHistory.CallsObeyTheirGates | crates/debug-session/src/session.rs:198-254 | after any history a tool call that its gate refuses or that is not granted what it asks for fails and changes nothing; any other succeeds and makes and records its operation's transition under its name, or leaves state and trace alone |
| SessionHistory.EventsLeadTo | crates/debug-session/src/session.rs:627-777 | an event leads to its state if the session can go there or is there already (a stop in a halt is refused), with a record under its name if it went |
| SessionHistory.KindIsTheLastStarted | crates/debug-session/src/session.rs:259-272 | the adapter's kind is that of the last adapter started, and unknown before the first |
| SessionHistory.FlagsFollowHistory | crates/debug-session/src/session.rs:284-347 | capabilities are recorded exactly if some initialize was answered when connected, the configuration exactly if some configuration_done was when initialized |
| SessionHistory.ResumedHasNoDetails | crates/debug-session/src/session.rs:376-402 | a session that runs since it left a halt has no details of a stop, and no thread counts as stopped |
| SessionHistory.ReasonByHistory | crates/debug-session/src/session.rs:656-663 | in a halt the reason and the breakpoints hit are those the last stopped event gave, or stand-ins for a body that does not deserialise |
| SessionHistory.BreakpointsFollowHistory | crates/debug-session/src/session.rs:458-515 | the session's breakpoints are what the updates, breakpoint events and closings of its history make of an empty cache |
| SessionHistory.SetBreakpointsAreCached | crates/debug-session/src/session.rs:458-473 | so after any history setting a file's breakpoints in an active session leaves one entry for each pair of request and response, which says what they say |
| SessionHistory.SetFunctionsAreCached | crates/debug-session/src/session.rs:476-490 | and setting function breakpoints likewise |
| SessionHistory.VariablesAreFound | crates/debug-session/src/session.rs:173-193 | after any history that leaves a halt, a lookup finds each variable of a get_variables answer that is the last of its name, with the reference, type and child counts it was answered with |
| SessionHistory.TargetsMeaning | crates/debug-bridge/src/handlers/inspect.rs:220-227 | context is assembled for all threads, or for exactly those with the wanted id, in the adapter's order |
| SessionHistory.ThreadsSay | crates/debug-bridge/src/handlers/inspect.rs:228-256 | what assembling context caches says, place by place, what was answered about the scopes' variables, with their frame and scope |
| SessionHistory.ContextIsFound | crates/debug-bridge/src/handlers/inspect.rs:204-328 | and afterwards a lookup finds each of them that is the last of its name, frame and scope |
| SessionRaces.PathsAreLegal | crates/debug-session/src/session.rs:211-254 | in every interleaving the states form a legal path from Disconnected and the trace records chain |
| SessionRaces.HandshakeCameFirst | crates/debug-session/src/state.rs:35-48 | on a legal path, since the last Disconnected came Connected, Initialized, and then only Running and Halted |
| SessionRaces.RunningMeansHandshake | crates/debug-session/src/session.rs:284-297 | so every initialized, running or halted session went through the handshake since it last started |
| SessionRaces.LiveWatcherIsCurrent | crates/debug-session/src/session.rs:248-249 | a live watcher holds the current state after the first transition since it subscribed, or always if it subscribed first |
| SessionRaces.SubscriberSeesLastHeard | crates/debug-session/src/session.rs:97-100 | a new subscriber sees the current state exactly if no transition was made yet, somebody was listening at the last one, or it came back to the state last heard |
| SessionRaces.ReceiversAreSubscribed | crates/debug-session/src/session.rs:97-100 | in every run the channel's receivers are those that subscribed and have not left since |
| SessionRaces.LateSubscriberIsStale | crates/debug-session/src/session.rs:80-81 | started with nobody listening, a session still looks disconnected to who subscribes then |
| SessionRaces.UnknownKindNeverChosen | crates/debug-session/src/session.rs:305-347 | in every interleaving the arms of launch and configuration_done for an unknown adapter kind are never taken |
| SessionRaces.FreshIffInTime | crates/debug-bridge/src/handlers/inspect.rs:106-111 | handles stay fresh throughout a run exactly if no transition comes between a get_variables gate and caching its non-empty answer |
| SessionRaces.HandlesStayFresh | crates/debug-session/src/session.rs:173-193 | in such a run the cache is empty outside a halt and every entry was asked for in the current halt |
| SessionRaces.StaleHandlesAreReachable | crates/debug-bridge/src/handlers/inspect.rs:106-111 | from any halt a continued event in between leaves a running session with the old halt's variables cached |
| SessionRaces.StaleHandlesOutliveTheirSession | crates/debug-session/src/session.rs:228-234 | and if that session is then shut down and another starts and halts, a lookup there still finds the old handles |
| SessionRaces.HaltIsReachable | crates/debug-session/src/session.rs:639-674 | a halt with whatever details a stopped event gives is reachable from the start |
| SessionRaces.GatedTransitionRefusedIff | crates/debug-session/src/session.rs:198-223 | in every run a call that passed its gate is refused its transition exactly if a transition was made since and the last one led where its target is not legal; initialize exactly if the session has left Connected; otherwise it reaches its target; a refused call ends and leaves the session as it was |
| SessionRaces.InitializeCanLoseItsTransition | crates/debug-session/src/session.rs:284-297 | that refusal does occur: from any connected session an early initialized event makes an answered initialize fail although the session is initialized |
| SessionRaces.AgreesIffSettles | crates/debug-session/src/session.rs:259-265 | throughout a run state and process disagree at most while a call is about to repair it, exactly if every connecting step finds the process or a call about to close, and every step that ends closing finds no process or a call about to connect |
| SessionRaces.QuietSessionsAgree | crates/debug-session/src/session.rs:353-364 | in such runs, with nothing between spawning and connecting or killing and closing, the session is disconnected exactly if there is no process, and can be started or shut down |
| SessionRaces.FindingProcessSettles | crates/debug-session/src/session.rs:259-265 | a connecting step that finds the process, or a closing one that finds none, settles, whatever the others are about to do |
| SessionRaces.ProcessNeedNotBeFound | crates/debug-session/src/session.rs:259-265 | that is not necessary: from any disconnected session without a process, a start whose process is killed reaches a connecting step that finds none and settles, because closing follows |
| SessionRaces.ConnectedWithoutProcess | crates/debug-session/src/session.rs:259-265 | the first disagreement occurs: from any disconnected session a late terminated event leaves a start connected without a process when both are over |
| SessionRaces.DisconnectedWithProcess | crates/debug-session/src/session.rs:698-710 | and the second: from any connected session a shutdown and a start during a terminated event end disconnected with a process, where every start and the shutdown are refused |
| SessionRaces.NothingRepairs | crates/debug-session/src/session.rs:211-254 | if nothing was in between before, nothing is left under way that would repair what they leave |
| SessionRaces.WholeCallsAreARun | crates/debug-session/src/session.rs:259-764 | every run of uninterrupted calls is one of the interleavings |
| SessionDetails.OneTransitionEach | crates/debug-session/src/session.rs:198-254 | in every run the transitions made and the calls that may still make one are together no more than the calls and events begun, so each makes at most one, refused or not |
| SessionDetails.DetailsIffInOrder | crates/debug-session/src/session.rs:376-402 | throughout a run a halted session has the details of an outstanding last stop and a running one no outstanding stop, but for calls about to repair it, exactly if every accepted transition to Halted finds such details or a call about to leave the halt, and every one to Running was gated after the last stop, or none is outstanding, or another event is about to enter the halt |
| SessionDetails.StillDetailsAgree | crates/debug-session/src/session.rs:656-692 | in such runs, with no call leaving and no event entering a halt, a halted session has the details of the last stop and a running one was resumed since it |
| SessionDetails.ResumeLosesStop | crates/debug-session/src/session.rs:387-402 | from any halt with nothing in between: a stopped event during an answered resuming call leaves the session running without details, its last stop outstanding and nothing under way to repair it |
| SessionDetails.LateStopHasNoDetails | crates/debug-session/src/session.rs:639-674 | and a stopped event overtaken by a whole resuming call after recording leaves it halted without details |
| SessionDetails.BreakpointsIffInPlace | crates/debug-session/src/session.rs:458-515 | throughout a run only an initialized, running or halted session has breakpoints, but for those about to be cleared, exactly if every update that leaves some finds such a session or another call about to clear |
| SessionDetails.BreakpointsSurviveRestart | crates/debug-session/src/session.rs:700-712 | from any active session a terminated event between the answer to setBreakpoints and the cache update leaves the breakpoints in the disconnected session and in the next initialized one |
| DebugSessions.DebugSession.TransitionTo | crates/debug-session/src/session.rs:211-254 | a legal transition changes state, trace, watch value and variable cache together; a refused one nothing |
| DebugSessions.DebugSession.Shutdown | crates/debug-session/src/session.rs:353-364 | performs the shutdown effect, for every prior state |
| DebugSessions.DebugSession.HandleEvent | crates/debug-session/src/session.rs:627-777 | performs each event's effect, for every prior state and body |
| DebugSessions.DebugSession.AssembleContext | crates/debug-bridge/src/handlers/inspect.rs:204-328 | behind the dispatcher's gate, its nested loops do the effect of the call, whose script, with the requests for children, and in which a failed request skips what it was for, also runs interleaved in SessionRaces |
| DebugSessions.DebugSession.AskForChildren | crates/debug-bridge/src/handlers/inspect.rs:261-276 | exactly the variables with a reference whose request is admitted and answered get children, if they are asked for |
| VariableCache.CacheRefinesLog | crates/debug-session/src/cache.rs:81-114 | after any operations each bucket lists the live writes of its name in write order |
| VariableCache.CacheIsLastWriterWins | crates/debug-session/src/cache.rs:81-114 | buckets are non-empty, keyed by name, hold one entry per frame and scope, and flatten to the last-writer-wins map |
| VariableCache.BatchIsFold | crates/debug-session/src/cache.rs:96-114 | a non-empty batch does what inserting its entries one by one does |
| VariableCache.LookupAfterRun | crates/debug-session/src/cache.rs:117-144 | lookup gives the exact key's last write, else the same-frame entry whose last insertion is oldest, else the oldest of the name |
| VariableCache.ContainsIff | crates/debug-session/src/cache.rs:148-161 | a name matches exactly if it is the query with something before and behind it |
| VariableCache.ValidUnlessStale | crates/debug-session/src/cache.rs:81-114 | the cache counts as valid unless it was last invalidated or marked stale |
| VariableCache.SearchIsTopK | crates/debug-session/src/cache.rs:148-161 | search returns min(limit, matches) matches newest first, those of one moment as visited, and no omitted match is newer than a returned one, whatever the map order |
| VariableCache.VariableHandleCache.InsertBatch | crates/debug-session/src/cache.rs:96-114 | the loop inserts the entries in order |
| VariableCache.VariableHandleCache.Lookup | crates/debug-session/src/cache.rs:117-144 | the three passes return the specified match |
| VariableCache.VariableHandleCache.Search | crates/debug-session/src/cache.rs:148-161 | collecting, sorting and truncating return the specified list |
| Breakpoints.UpdateChangesOneEntry | crates/debug-session/src/breakpoints.rs:134-177 | an event changes at most one entry with its id, keeping id, kind, function name and conditions |
| Breakpoints.FoundSlotIsOrderIndependent | crates/debug-session/src/breakpoints.rs:141-171 | the entry found does not depend on map order exactly if one source file at most has the id |
| Breakpoints.BreakpointsAreConserved | crates/debug-session/src/breakpoints.rs:100-194 | over any run the list holds, place by place, the breakpoints the latest updates put there, with their id, kind, function name and conditions, and min(requests, responses) of each |
| Breakpoints.SourceEntries | crates/debug-session/src/breakpoints.rs:100-116 | after any run the i-th entry of a file is for the i-th request and response of its last update, with their id and conditions, and, if no event came since, their position, verification and message |
| Breakpoints.FunctionEntries | crates/debug-session/src/breakpoints.rs:117-132 | and the i-th function breakpoint likewise |
| Breakpoints.NoUpdateNoEntries | crates/debug-session/src/breakpoints.rs:100-194 | a file has a list exactly if it was updated since the last clear; function breakpoints likewise |
| Breakpoints.ListPlaces | crates/debug-session/src/breakpoints.rs:183-194 | where an entry is listed: after those of the files visited before it, functions last |
| Breakpoints.BreakpointCache.UpdateById | crates/debug-session/src/breakpoints.rs:134-177 | the nested loops refresh the first match and report whether there was one |
| Breakpoints.BreakpointCache.List | crates/debug-session/src/breakpoints.rs:183-194 | the loop lists every source's entries, then the function breakpoints |
| OpenOcd.LinesAreConserved | crates/openocd-client/src/client.rs:406-428 | lines removed followed by the buffer are the lines read, the buffer holds at most 1000, and every command has exactly the lines it took |
| OpenOcd.OneAnswerPerTerminator | crates/openocd-client/src/client.rs:233-290 | in every run the commands that did not time out are exactly those that took a terminator, and terminators removed plus timeouts are finished commands plus evicted terminators |
| OpenOcd.TerminatorOfCommand | crates/openocd-client/src/client.rs:233-256 | the k-th command ends at the terminator whose number is k, less the timeouts before it, plus the terminators evicted before |
| OpenOcd.OwnAnswerIff | crates/openocd-client/src/client.rs:210-256 | in every run a command takes exactly the lines between terminators k - 1 and k if and only if those two numbers cancel, nothing in between was evicted or taken by a timed-out command, and no terminator was evicted once it had begun |
| OpenOcd.OwnAnswerIffNoTimeoutBefore | crates/openocd-client/src/client.rs:233-290 | as long as nothing was evicted, exactly if no command before it timed out |
| OpenOcd.CommandsGetTheirOwnAnswers | crates/openocd-client/src/client.rs:233-267 | without evictions, a command before which none timed out returns exactly the lines between terminators k - 1 and k |
| OpenOcd.TimeoutMisdirectsTheNextAnswer | crates/openocd-client/src/client.rs:268-290 | any run that leaves the client idle with an empty buffer goes on so that a command times out and the next one gets its answer instead of its own |
| OpenOcd.HearsIffTold | crates/openocd-client/src/client.rs:233-256 | throughout a run no command is left waiting beside lines nothing will tell it of, exactly if every command began with an empty buffer or a notification to come, and every notification of a line in the buffer found the command waiting |
| OpenOcd.ToldCommandsLeaveNothing | crates/openocd-client/src/client.rs:233-290 | in such a run a command that nothing under way will wake leaves an empty buffer when it times out |
| OpenOcd.DeafUntilNextLine | crates/openocd-client/src/client.rs:238 | a command that has missed its notification takes nothing until a further line comes, and a timeout leaves the buffer as it is |
| OpenOcd.AnswerCanBeMissed | crates/openocd-client/src/client.rs:417-427 | any run that leaves client and reader idle with an empty buffer goes on so that a command times out with its answer in the buffer |
| OpenOcdResults.LastLineMeaning | crates/openocd-client/src/client.rs:242-250 | a terminator line counts with the text before and behind its terminator, unless there is none |
| OpenOcdResults.ReturnedText | crates/openocd-client/src/client.rs:258-267 | without evictions and timeouts before it, a completed command returns the text that, split at line feeds, is the lines between terminators k - 1 and k and what stands beside the latter |
| OpenOcdResults.FailsIff | crates/openocd-client/src/client.rs:268-290 | in every run a completed command never fails, and a timed-out one exactly if it took nothing but at most one empty line; otherwise it returns the text that holds the lines it took |
| OpenOcdResults.EvictsTheOldest | crates/openocd-client/src/client.rs:417-424 | in every run a line read into a buffer of 1000 lines evicts the oldest, into any other none |
| OpenOcdResults.LooksOnlyWhenNotified | crates/openocd-client/src/client.rs:233-240 | in every run a command looks at the buffer only after it began to wait and a notification came, since it began and since it last looked |
| OpenOcdResults.PromptAnswer | crates/openocd-client/src/client.rs:210-267 | from any idle moment with an empty buffer, a command whose answer is printed while it waits ends with exactly its lines and leaves the client idle |
| OpenOcdResults.FirstAnswer | crates/openocd-client/src/client.rs:210-267 | so the first command returns the text that holds its answer |
| OpenOcd.OpenOcdClient.PushLine | crates/openocd-client/src/client.rs:417-424 | pushes one line and evicts the oldest beyond the limit |
| OpenOcd.OpenOcdClient.NotifyWaiters | crates/openocd-client/src/client.rs:427 | wakes a command that is waiting and is lost on one that is not |
| OpenOcd.OpenOcdClient.CollectOnce | crates/openocd-client/src/client.rs:238-253 | a woken command takes lines up to the first terminator and completes there, or waits again |
| OpenOcd.OpenOcdClient.GiveUp | crates/openocd-client/src/client.rs:268-290 | a timeout returns what was collected, or an error if that is empty, and leaves the buffer alone |
| PathText.StripOfJoin | crates/debug-session/src/mapping.rs:115-168 | below a clean directory, stripping gives back the remainder that was joined |
| PathText.StrippedParts | crates/debug-session/src/mapping.rs:166 | stripping a directory above a path leaves exactly the path's other components |
| PathLaws.TrivialCountsNothing | crates/debug-session/src/mapping.rs:150 | an empty or "." segment that is not the first does not change a path's components |
| PathLaws.PlainComponents | crates/debug-session/src/mapping.rs:150 | written plainly, a path's components are its segments, after a root or a leading "." |
| PathLaws.JoinLaw | crates/debug-session/src/mapping.rs:118 | joining puts a relative text's components behind the base's; an absolute text replaces the base |
| PathLaws.StripLaw | crates/debug-session/src/mapping.rs:166 | for all paths, relative ones included, stripping a path above leaves exactly the other components |
| PathLaws.StrippedIsPart | crates/debug-session/src/mapping.rs:166 | the stripped text stands in the path as it is written |
| PathMapping.SortedFirstIsLongest | crates/debug-session/src/mapping.rs:100-123 | the first match in the sorted list is a longest match, and there is one if any alias matches |
| PathMapping.TiesGoToTheFirstVisited | crates/debug-session/src/mapping.rs:100-103 | of equally long matches resolve takes the first one the map yields |
| PathMapping.DeterministicIffUnambiguous | crates/debug-session/src/mapping.rs:100-123 | resolve is independent of map order exactly if aliases with the same slashed text have the same directory |
| PathMapping.ResolveUsesLongestMatch | crates/debug-session/src/mapping.rs:104-122 | then resolve substitutes the longest matching alias |
| PathMapping.ResolvesInBaseDirs | crates/debug-session/src/mapping.rs:125-138 | a relative path that no alias matches resolves to its place in the first base directory that has the file, else in the first base directory, else to nothing |
| PathMapping.ReversesBelowBaseDirs | crates/debug-session/src/mapping.rs:178-186 | a path without an alias directory above it reverses to what is left below the first base directory above it, else to nothing |
| PathMapping.BaseDirRoundTrip | crates/debug-session/src/mapping.rs:91-186 | a file below a clean base directory comes back both ways if no alias and no earlier base directory claims it |
| PathMapping.BestIsFirstLongest | crates/debug-session/src/mapping.rs:149-163 | of the longest alias directories above a path, reverse keeps the first one visited |
| PathMapping.ReverseChoosesUniqueLongest | crates/debug-session/src/mapping.rs:149-163 | with clean distinct directories, whatever the aliases are called, reverse chooses an alias exactly if its directory is the longest above the path |
| PathMapping.ReverseIsDeterministic | crates/debug-session/src/mapping.rs:146-186 | and reverse is independent of map order |
| PathMapping.ResolveAfterReverse | crates/debug-session/src/mapping.rs:91-186 | if nested aliases stand for nested directories, resolve(reverse(a)) == a exactly if a has no backslash and is the chosen directory (an absolute alias must read the same), or is written as it and a tidy remainder under a relative alias that does not end in '/' (or stands for the root, or has a twin with one more '/'), or reads as an absolute alias and the remainder |
| PathMapping.CleanPathsRoundTrip | crates/debug-session/src/mapping.rs:91-186 | a clean absolute path under an alias directory, the chosen alias being relative, survives exactly if it is that directory or the alias does not end in '/' (or stands for the root, or has such a twin) |
| PathMapping.ReverseAfterResolve | crates/debug-session/src/mapping.rs:91-186 | with distinct directories, reverse(resolve(p)) == p exactly if p is its longest match, or has no backslash and is that alias, one '/' and a tidy remainder, no deeper alias directory lies above the result, and an alias that ends in '/' stands for the root |
| PathMapping.PlainPathsRoundTrip | crates/debug-session/src/mapping.rs:91-186 | if nested directories have nested aliases, an aliased path of plain segments survives exactly if it is its longest match, or that match does not end in '/' and is not the path in other slashes |
| PathMapping.TrailingSlashLosesTheDirectory | crates/debug-session/src/mapping.rs:108-120 | with one relative alias that ends in '/', a path below its directory reverses to a text with "//", which resolves to "/" and the remainder, while the text with one '/' resolves to the path |
| PathMapping.TrailingSlashExample | crates/debug-session/src/mapping.rs:166-177 | "/p/src/a" under "src/" for "/p/src" reverses to "src//a", which resolves to "/a"; "src/a" resolves to "/p/src/a" |
| PathMapping.RootedIsCoherent | crates/debug-session/src/mapping.rs:54-66 | aliases of plain segments that all stand for their own place below one root meet every condition of both round trips |
| PathMapping.RootedRoundTrips | crates/debug-session/src/mapping.rs:91-186 | so below one root both round trips hold for every clean absolute path and every aliased path of plain segments |
| PathMapping.LastRegistrationWins | crates/debug-session/src/mapping.rs:67-83 | registering a list leaves each alias at its last directory and the others alone |
| PathMapping.ReverseCacheHoldsLastAlias | crates/debug-session/src/mapping.rs:67-83 | the reverse cache holds the last alias given for each directory |
| PathMapping.PathMapper.Resolve | crates/debug-session/src/mapping.rs:91-141 | the sorted loop, the base directory probe and the fallback return the specified path |
| PathMapping.PathMapper.Reverse | crates/debug-session/src/mapping.rs:146-186 | the best-so-far loop and the base directory loop return the specified path |
| PathMapping.PathMapper.RegisterAliases | crates/debug-session/src/mapping.rs:75-83 | the loop registers the mappings in order |

## Left out

- DAP and MCP data types, tool schemas, parameter parsing and JSON itself: messages are opaque or carry only the fields the core reads.
- Process spawning, PATH injection, stderr, log files, HTTP/SSE and the command line: spawning and writing are steps that may fail.
- Liveness of waiters after the adapter dies: the code does not guarantee that they complete.
- `context.rs`, `VariableExpander`, the trace ring, the tool tables and the MCP router: gating appears only as the guard of the session's steps.
- `list_breakpoints`' reverse mapping of source paths: it composes two proved operations entry by entry.
- The end of input of `FramedRead` and of the OpenOCD reader, and closing the client's stdout: only what happens while bytes arrive.
- Windows path rules and Unicode: paths are '/'-separated, trimming is of ASCII white space, and lower-casing is a parameter.
- Integer widths of counters: sequence numbers do not wrap; the decoder's sums cannot wrap where 4096 + K + max_frame_size fits 64 bits, by BufferBound.
- The window inside `DapClient::start` between checking for a process and storing the new one: spawning is one step of the session.
- `is_valid` and the stale flag of the variable cache have no reader in the modelled core beyond being set as the code sets them.
- DebugSessions.DebugSession.AssembleContext: returns success only; the assembled text, with the children, is a report of the answers.
- The dispatcher's gate in front of the other tools: it asks for the same states as the session's own gate a moment later, so it only refuses some calls earlier.
- DebugSessions.DebugSession.HandleEvent: returns success only; whether an event is also passed through is fixed by its kind.
- DebugSessions.DebugSession.Resume: stands for the four resuming methods, which differ only in the request they send.
- PathMapping.PathMapper.Resolve: asks the file system through a predicate and takes the hash map's order as a parameter.
- Wire.PeerReadsRequestsInWriteOrder: says nothing about a pipe on which a write broke off inside a frame.
