# Forge Conductor: a verified model

Forge Conductor is a Windows host for coding agents: a dashboard server, durable schedules, sessions
that hand over to successors, and model runs that invoke tools. This project models the parts of it
whose behaviour is hardest to see from one function, and proves what they keep over every input and
every interleaving. Each part is written in the form of its source: loops over buffers, classes whose
methods update fields, and functions where the source computes values. Concurrent parts are split at
the points where the source takes and releases its locks, and the environment (other threads, the
store, the host, the provider, the clock, the end of the process) acts arbitrarily in between.

| files | part |
|---|---|
| `Utf8`, `HttpText`, `HttpParser`, `HttpParserProperties`, `HttpMessage`, `HttpParserSession` | the one-shot HTTP parser, the incremental session over it, and UTF-8 validation (RFC 3629, RFC 9112) |
| `ScheduleModel`, `ScheduleContracts`, `SchedulePaging`, `Scheduler`, `ScheduleRuns`, `Calendar` | the durable scheduler with process ends and restarts, record paging, UTC texts |
| `ContinuityRepository`, `ContinuityProtocol`, `ContinuityCoordinator` | the handoff protocol: repository transactions, all interleavings of coordinators, the coordinator itself |
| `RepositoryCacheModel`, `RepositoryCacheInvariant`, `RepositoryCacheProperties`, `RepositoryCacheOrigins`, `RepositoryCache` | the bounded cache of open repositories |
| `LegacyContinuityModel`, `LegacyContinuityWriter` | the optimistic writer of handoff packets |
| `ManagedRunModel`, `ManagedRunProperties`, `ManagedRunService`, `ManagedRunTalk`, `ManagedRunWorker` | managed runs: the service, and the thread of one run |
| `AgentCatalogModel`, `AgentCatalog` | the agent catalog |
| `JsonText`, `DashboardJson`, `DashboardReading` | the byte budget of the status response, the writer it predicts, and what a reader finds in the text |

How the pieces of one part fit together:

- Parser: `HttpParser.Verdict` specifies the one-shot parser. `HttpParser.Parse` computes it, the
  grammar lemmas of `HttpParserProperties` say what it accepts, and `HttpMessage` says, without
  mentioning the parser, which bytes a request is the reading of and what each rejection is given for.
  `HttpParserSession.RunSession` is the refinement: the session ends with that verdict however the
  stream is cut.
- Protocols: a step function or relation describes each section under the lock. Theorems range over
  all runs of it (`IsRun`). The class methods are proved to take exactly those steps.
- Processes: where the process may end, the environment decides at each external call
  (`MayDie`, `life`), so a property of every run is a property of every prefix of an execution.
- Causes: ghost records of what the surroundings did (`troubles`, `troubled`, `asked`, `sent`, `confirmed`,
  `invocations`) let a contract say both what an operation does when nothing fails and why it failed.

## Findings

Where a promised property fails, the model keeps the behaviour of the code and states exactly when.

- Recovery with resumption off cannot cancel an operation in retry wait: the repository binds retry
  wait to its resume state, so the compare-and-set conflicts and the operation is counted as failed.
  In every reachable state an unfinished operation can be moved to cancelling if and only if it is
  not in retry wait and a transition is left (`ContinuityProtocol.CancellableInRuns`). A run that
  ends there is given (`ContinuityProtocol.RetryWaitRefusesRecovery`), and recovery itself, undisturbed,
  cancels exactly what can be cancelled (`ContinuityCoordinator.Coordinator.CancelOperation`).
- The cache dereferences a null repository that the opener reported as a success exactly when the
  publication lock is refused or a shutdown was requested
  (`RepositoryCacheProperties.CrashCondition`, with a run in `RepositoryCacheProperties.CrashingRun`).
- If the run service forgets a finished run, the schedule's record becomes unfinished again. The rule
  of one unfinished run per owned reference then breaks exactly when another schedule of that owner
  has one (`ScheduleRuns.ForgottenFinishedRun`, with records in
  `ScheduleRuns.ForgottenRunBreaksTheRule`). `ScheduleRuns.RunFromTheStart` is about run services that
  do not forget.
- With a host that ignores idempotency keys, two sessions for one operation are possible: two
  coordinators in SuccessorCreating both query before either creates
  (`ContinuityProtocol.WithoutIdempotencyTwoSessions`).
- A cancelled managed run can be shown as running or paused again. This happens if and only if the
  cancellation finds the thread about to show something without coming to another boundary: it read a
  pause and has not shown it, passed the boundary that ended a pause, passed the boundary before a turn or
  before the last call of a reply, is in such a turn or call, or asks continuity for a successor
  (`ManagedRunProperties.CancellationHiddenExactly`, with a run in
  `ManagedRunProperties.CancellationCanBeHidden`). "If" is about surroundings that may answer anything: a
  provider, tool or store that refuses once the run is cancelled hides nothing. During a call that is not the
  last of its reply a cancellation is never hidden (`ManagedRunProperties.CancelledBetweenCalls`). The stop
  itself is never lost (`ManagedRunProperties.CancelStopsDispatch`).
- An implicit checkpoint or handoff is meant to start anew after a packet that is ready to resume. The
  check is made when the record is selected, not when it is read again after a conflict. A saved write
  therefore continues a ready packet if and only if another writer committed it as ready during the call
  (`LegacyContinuityWriter.Writer.Persist`, with an interleaving in
  `LegacyContinuityWriter.FinalizedInBetween`).
- Automatic writes ask to fill only. A finalizing one still replaces the status unless its patch names
  one and adds a note to the narrative, and every one renews a resume seed nobody wrote
  (`LegacyContinuityModel.WhatFillingReplaces` says exactly when).
- On an unfinished stream of 32769 to 32771 bytes without a header end, the one-shot parser may
  already reject, while the session still waits. Both reject every continuation for the same
  reason, so the outcomes agree (`HttpParserSession.HeaderByteStep`,
  `HttpParserProperties.TooLongStaysTooLong`).
- The parser's second check of the header limit, after a delimiter was found, never fires
  (`HttpParser.Parse`), and neither do the session's internal-failure exits.

## Model

| member | source | states |
|---|---|---|
| HttpParserSession.RunSession | src/Dashboard/DashboardHttpParserSession.cpp:127-217 | for every stream and every way of cutting it into chunks, appending the chunks and finishing gives exactly the request or rejection of the one-shot parser on the whole stream; a request is given exactly if the stream is that request written (method, target, fields, body), and every rejection has its cause |
| HttpParserSession.Session.Append | src/Dashboard/DashboardHttpParserSession.cpp:127-190 | after any chunk the session presents the view that the one-shot parser has of all bytes so far; it never ends in an internal failure; each error answer is given exactly when its cause holds |
| HttpParserSession.Session.Finish | src/Dashboard/DashboardHttpParserSession.cpp:192-217 | an unfinished session is rejected with the verdict of the one-shot parser on the finished stream; a complete one keeps its request |
| HttpParserSession.Session.TakeRequest | src/Dashboard/DashboardHttpParserSession.cpp:219-244 | hands out the request of the received stream once: the stream is that request written; otherwise says why not |
| HttpMessage.AcceptedExactly | src/Dashboard/DashboardHttpParser.cpp:452-503 | the parser accepts a buffer, as this request, if and only if the buffer is the request written: the method as sent in any case, the target, each field in order with its name lower-cased and its value trimmed, and after the empty line exactly the declared body |
| HttpMessage.WritesOne | src/Dashboard/DashboardHttpParser.cpp:452-458 | a buffer is the written form of at most one request |
| HttpMessage.RejectedForCause | src/Dashboard/DashboardHttpParser.cpp:325-503 | every rejection, for each of the fifteen reasons, is given for its cause |
| HttpParserSession.Session.RemainingBytes | src/Dashboard/DashboardHttpParserSession.cpp:246-256 | the bytes still missing from the declared total, exactly while one is known |
| HttpParserSession.Session.EnsureCapacity | src/Dashboard/DashboardHttpParserSession.cpp:264-280 | keeps the buffered bytes and refuses only above the owned maximum |
| HttpParserSession.Session.ReceiveHeaderByte | src/Dashboard/DashboardHttpParserSession.cpp:282-317 | one header byte: every store is in bounds, both guards before it cannot fail, and the new state presents the longer stream |
| HttpParserSession.Session.ValidateHeader | src/Dashboard/DashboardHttpParserSession.cpp:319-362 | a completed header leads to completion, to an open body with the recovered length, or to the rejection of the parser; never to an internal failure |
| HttpParserSession.Session.OpenBody | src/Dashboard/DashboardHttpParserSession.cpp:345-362 | the second scan finds a length, the total is within the maximum, and the buffer can hold it with one byte to spare |
| HttpParserSession.Session.CompleteRequest | src/Dashboard/DashboardHttpParserSession.cpp:364-382 | parsing the full buffer again accepts it |
| HttpParserSession.Session.RejectTrailingBytes | src/Dashboard/DashboardHttpParserSession.cpp:402-416 | one byte past the declared total fits the buffer and makes the parser reject it as bytes after the body |
| HttpParserSession.ExtractValidatedContentLength | src/Dashboard/DashboardHttpParserSession.cpp:57-123 | on every header the parser accepts, the second scan recovers the bounded body length of the parser |
| HttpParserSession.LengthIsFixed | src/Dashboard/DashboardHttpParserSession.cpp:57-123 | the first content length decides: later accepted fields do not change it, so the scan may stop there |
| HttpParserSession.HeaderByteStep | src/Dashboard/DashboardHttpParserSession.cpp:282-317 | what one more byte does to an open header: it completes the delimiter, exceeds the limit, or leaves the header open |
| HttpParserSession.HeaderEndStep | src/Dashboard/DashboardHttpParserSession.cpp:282-317 | while a header is open, only its newest byte can complete the delimiter |
| HttpParserSession.HeaderBoundary | src/Dashboard/DashboardHttpParserSession.cpp:319-362 | the three verdicts possible where a header ends, and what each makes of the stream |
| HttpParserSession.BodyStep | src/Dashboard/DashboardHttpParserSession.cpp:127-190 | more body bytes move an open body towards its declared total, onto it, or past it |
| HttpParserSession.ViewDecidesVerdict | src/Dashboard/DashboardHttpParserSession.cpp:127-217 | the view of the bytes received determines the verdict of the one-shot parser, finished or not |
| HttpText.AutomatonStep | src/Dashboard/DashboardHttpParserSession.cpp:282-304 | after each byte the automaton holds the longest prefix of CRLFCRLF that ends the stream |
| HttpText.DelimiterPrefixAtEnd | src/Dashboard/DashboardHttpParser.cpp:231-242 | the longest proper prefix of CRLFCRLF that ends a buffer |
| HttpText.CheckTarget | src/Dashboard/DashboardHttpParser.cpp:185-206 | accepts exactly the request targets made of permitted bytes and complete escapes |
| HttpText.TrimMeaning | src/Dashboard/DashboardHttpParser.cpp:217-229 | trimming removes blanks, only blanks, and all of them, from both ends |
| HttpParser.Parse | src/Dashboard/DashboardHttpParser.cpp:462-503 | the loops and searches of the parser give the verdict whose meaning `HttpMessage.AcceptedExactly` and `HttpMessage.RejectedForCause` state; its second limit check never fires |
| HttpParser.ParseCompleteHeader | src/Dashboard/DashboardHttpParser.cpp:325-458 | header and body checks in the order of the parser, with its body limit arithmetic |
| HttpParser.ParseFields | src/Dashboard/DashboardHttpParser.cpp:359-436 | the cursor loop is the fold of one field step over the lines of the header |
| HttpParser.ParseContentLength | src/Dashboard/DashboardHttpParser.cpp:407-429 | the digit loop with its division guard computes the decimal value, or finds it over the limit, without overflow |
| HttpParser.ParseBoundedRequestLine | src/Dashboard/DashboardHttpParser.cpp:306-323 | an over-long target is told apart from an invalid request line |
| HttpParserProperties.RequestLineGrammar | src/Dashboard/DashboardHttpParser.cpp:260-323 | accepts exactly the request lines of the grammar of section 3 of RFC 9112 with the supported version, upper-casing the method |
| HttpParserProperties.FieldsAccepted | src/Dashboard/DashboardHttpParser.cpp:359-436 | accepts exactly the lists of at most 64 valid lines with pairwise distinct names, and keeps every field in order |
| HttpParserProperties.HeaderGrammar | src/Dashboard/DashboardHttpParser.cpp:325-436 | which header sections are accepted, and the method, target, headers and length they yield |
| HttpParserProperties.RejectionIsFinal | src/Dashboard/DashboardHttpParser.cpp:462-496 | a rejection of an unfinished buffer is final: every extension is rejected for the same reason, also the early one for an over-long header |
| HttpParserProperties.AcceptanceIsExact | src/Dashboard/DashboardHttpParser.cpp:438-458 | an accepted buffer is consumed whole, and every strict extension is rejected |
| HttpParserProperties.TooLongStaysTooLong | src/Dashboard/DashboardHttpParser.cpp:467-490 | a header too long even for a partial delimiter at its end stays too long |
| HttpParserProperties.CompletionSettles | src/Dashboard/DashboardHttpParser.cpp:467-496 | the end of the stream turns pending into incomplete and changes no other verdict |
| Utf8.WellFormedIffEncoded | src/Dashboard/DashboardHttpParser.cpp:53-145 | the grammar of section 4 of RFC 3629 accepts exactly the encodings of sequences of scalar values |
| Utf8.IsStrictUtf8 | src/Dashboard/DashboardManagerJsonCodec.cpp:50-125 | the lead-byte table (also at src/Dashboard/DashboardHttpParser.cpp:53-145) accepts exactly the grammar |
| Utf8.DecodeScalar | src/Application/AgentCatalog.cpp:52-100 | the decoder with minimum and surrogate checks accepts exactly one character of the grammar, gives its scalar value and always advances |
| Utf8.ValueChecksAreGrammar | src/Application/AgentCatalog.cpp:83-100 | the checks on the decoded value are the second-octet rows of the grammar |
| Utf8.IsValidText | src/Application/AgentCatalog.cpp:102-123 | accepts exactly the well-formed texts of permitted scalars |
| Utf8.EncodeScalars | src/Application/AgentCatalog.cpp:52-123 | decoding and encoding a well-formed text gives it back |
| Utf8.CutAtBoundary | src/Application/ScheduledTaskService.cpp:96-100 | cutting a text before an octet that continues no character leaves two texts |
| ScheduleRuns.RunFromTheStart | src/Application/ScheduledTaskService.cpp:206-614 | over every run with crashes and restarts: each run is started once, only while the store shows it as just admitted with the due time advanced or cleared; nothing starts a schedule that needs attention; a schedule starts again only after its earlier runs finished or were given up explicitly; no two schedules of one owner and reference have an unfinished run each |
| ScheduleRuns.Perform | src/Application/ScheduledTaskService.cpp:258-399 | of all requests only dispatch and run-now start a run, and only run-now clears a need for attention or gives up a run |
| ScheduleRuns.CollectPages | src/Application/ScheduledTaskService.cpp:285-318 | pages collected to the end under one revision are exactly the text of the one record the revision names, whatever happens between the reads |
| ScheduleRuns.PagesAdvance | src/Application/ScheduledTaskService.cpp:96-100 | with room for one character every page but the last comes within four bytes of its maximum and ends where the next may begin |
| ScheduleRuns.PageExtends | src/Application/ScheduledTaskService.cpp:309-317 | a page continues the text read so far, and the last one completes it |
| ScheduleRuns.ForgottenFinishedRun | src/Application/ScheduledTaskService.cpp:549-576 | a finished run that the run service forgets breaks the rule of one unfinished run exactly when another schedule of the owned reference has an unfinished run |
| ScheduleRuns.ForgottenRunBreaksTheRule | src/Application/ScheduledTaskService.cpp:326-372 | records that break it: a task that ran once and finished, a later schedule of it whose run is unfinished; they satisfy every invariant of the scheduler until the run service no longer knows the first run |
| Scheduler.Scheduler.Commit | src/Application/ScheduledTaskService.cpp:467-480 | a commit replaces memory and store together, or leaves memory as it was with the store either way; it fails only where the surroundings failed or revisions ran out |
| Scheduler.StampAll | src/Application/ScheduledTaskService.cpp:467-475 | every changed record gets the next revision; it refuses exactly when a revision is exhausted |
| ScheduleContracts.AmbiguousSave | src/Application/ScheduledTaskService.cpp:467-480 | a save that took effect but was reported as failed keeps every invariant |
| ScheduleContracts.SuccessfulSave | src/Application/ScheduledTaskService.cpp:467-480 | a reported save keeps every invariant |
| ScheduleContracts.ReleasingKeepsState | src/Application/ScheduledTaskService.cpp:287-317 | a revision shown to a reader names one record content for ever |
| Scheduler.Scheduler.Notify | src/Application/ScheduledTaskService.cpp:488-525 | a notification changes no schedule term, never fails, and marks the record exactly when it could not be saved; only a failure leaves a mark |
| Scheduler.Scheduler.Block | src/Application/ScheduledTaskService.cpp:527-530 | the saved record shows the error and needs attention, and nothing of its task or run changed; or nothing changed |
| Scheduler.Scheduler.Observe | src/Application/ScheduledTaskService.cpp:531-548 | the record shows what the run service reported of its own run, for the right owner; it fails only over another owner, a failure of the surroundings, or revisions run out |
| Scheduler.Scheduler.Reconcile | src/Application/ScheduledTaskService.cpp:549-576 | one question is asked about the latest run, and the record shows the answer: the run as reported, or that nobody can say, which waits for attention; the run of a cancelled schedule is asked to stop; after a restart what is unfinished is interrupted and waits for attention; a record not needing attention shows its run as unfinished exactly while it is |
| Scheduler.Scheduler.MarkInterrupted | src/Application/ScheduledTaskService.cpp:549-576 | an unknown run is recorded as interrupted and needing attention, or nothing changed |
| Scheduler.Scheduler.ClearDispatch | src/Application/ScheduledTaskService.cpp:577-592 | a dispatch is refused while another schedule of the owned reference has an unfinished run, and otherwise only where the surroundings fail; its run identity is fresh and its time no earlier than the call |
| Scheduler.Scheduler.Admit | src/Application/ScheduledTaskService.cpp:597-602 | on success the store holds the same task with this run admitted and the due time advanced |
| Scheduler.Scheduler.StartRun | src/Application/ScheduledTaskService.cpp:602-604 | the run service is called only with a run that the store shows as admitted and that was never started before |
| Scheduler.Scheduler.TryFire | src/Application/ScheduledTaskService.cpp:577-608 | a dispatch starts exactly one run or none, changes nothing of the task, and after a failure the record is as before or shows the run as unfinished; it fails only where the surroundings did, or beside an unfinished run of the same reference |
| Scheduler.Scheduler.Fire | src/Application/ScheduledTaskService.cpp:577-608 | a failed dispatch leaves a schedule that no tick dispatches, and has such a cause |
| Scheduler.Scheduler.Visit | src/Application/ScheduledTaskService.cpp:261-267 | only a due schedule starts a run in a tick; and a schedule that, as reconciled, is not cancelled, needs no attention, shows no unfinished run and was due when its turn came starts one, unless it is blocked by a failure or beside an unfinished run of the same reference; afterwards it is not overdue; a turn fails only where the surroundings did |
| Scheduler.Scheduler.Tick | src/Application/ScheduledTaskService.cpp:258-269 | a tick that succeeds leaves no schedule without cancellation, attention or unfinished run whose due time had passed when it began, and has asked about every run on record; it changes no task; it fails only where the surroundings did, before initialization or after shutdown, and then does nothing |
| Scheduler.Scheduler.StopRun | src/Application/ScheduledTaskService.cpp:432-437 | an unfinished run is asked to stop, and the record shows the answer |
| Scheduler.Scheduler.Locate | src/Application/ScheduledTaskService.cpp:285-286 | the schedule of the caller, reconciled; fails only for an unknown one, before initialization, after shutdown, or where the surroundings did |
| Scheduler.Scheduler.Initialize | src/Application/ScheduledTaskService.cpp:217-257 | starts nothing; after it, memory is the reconciled store, and every run that is still unfinished is shown as interrupted and waits for attention |
| Scheduler.Scheduler.Restart | src/Application/ScheduledTaskService.cpp:206-257 | a process end at any point keeps the invariants of what remains |
| Scheduler.Scheduler.Shutdown | src/Application/ScheduledTaskService.cpp:426-439 | starts nothing and accepts nothing afterwards; unless something fails, every unfinished run has been asked to stop |
| Scheduler.Scheduler.Create | src/Application/ScheduledTaskService.cpp:326-372 | appends exactly the requested record under a fresh identity, first due at the given time or one interval from now; refused only while the owned reference has an active schedule, over a bad time or interval, at the limit, before initialization, after shutdown, or where the surroundings failed |
| Scheduler.Scheduler.Cancel | src/Application/ScheduledTaskService.cpp:378-382 | the owned schedule is cancelled, never due again and otherwise the same task, and its unfinished run is asked to stop; refused only for an unknown schedule, before initialization, after shutdown, or where the surroundings failed |
| Scheduler.Scheduler.Authorize | src/Application/ScheduledTaskService.cpp:384-393 | gives up an unfinished run only if it is shown as interrupted and needing attention, and only if the authorization reached memory or the store; what is given up ends the history; a failure that saved nothing gives up nothing |
| Scheduler.Scheduler.RunNow | src/Application/ScheduledTaskService.cpp:383-395 | starts at most one run, of the named schedule; a success starts one under the given authorization; refused only for an unknown or cancelled schedule, a run that may be going on, an unfinished run of the same reference, before initialization, after shutdown, or where the surroundings failed |
| Scheduler.Scheduler.List | src/Application/ScheduledTaskService.cpp:319-325 | the identities of exactly the schedules of the caller, in order, each with a revision that was released; without one only where a notification could not be saved |
| Scheduler.Scheduler.ReadPage | src/Application/ScheduledTaskService.cpp:285-318 | a page of the record the answered revision names; a continuation without its revision is refused; every refusal has one of the stated causes |
| SchedulePaging.Page | src/Application/ScheduledTaskService.cpp:96-100 | the longest start within the maximum that ends at a character boundary |
| SchedulePaging.PageOfText | src/Application/ScheduledTaskService.cpp:96-100 | a page of a text is a text, leaves a text, and is empty only if a character does not fit |
| SchedulePaging.OnlyOnePage | src/Application/ScheduledTaskService.cpp:96-100 | text and maximum determine the page |
| Calendar.ParseUtc | src/Application/ScheduledTaskService.cpp:63-79 | accepts exactly the texts of existing calendar times from 1970 through 9999 and answers their instant |
| Calendar.TextRoundTrip | src/Application/ScheduledTaskService.cpp:53-79 | every accepted text comes back from its instant |
| Calendar.InstantRoundTrip | src/Application/ScheduledTaskService.cpp:53-79 | every instant through 9999 comes back from its text, rounded down to the second |
| Calendar.DateNumbers | src/Application/ScheduledTaskService.cpp:53-79 | every day number names an existing Gregorian date |
| Calendar.DatesAreDistinct | src/Application/ScheduledTaskService.cpp:53-79 | different dates have different day numbers |
| Calendar.DaysBeforeYearClosed | src/Application/ScheduledTaskService.cpp:53-79 | counting years one by one agrees with the Gregorian leap-year formula |
| ContinuityProtocol.HandoffSafety | src/Application/ContinuityCoordinator.cpp:86-750 | in every interleaving with crashes: states past a persisted checkpoint have their handoff, states past creation a successor, acknowledged states the acknowledgement of exactly that successor and handoff, also through retry wait; at most one operation is unfinished; the active session belongs to a completed operation, and there is one once an operation is completed |
| ContinuityProtocol.StepMovesPointer | src/Persistence/Windows/WindowsProjectMemoryRepository.cpp:5644-5653 | every step that completes an operation makes its successor the active session, and no other step moves the pointer |
| ContinuityProtocol.PointerNamesLastCompleted | src/Persistence/Windows/WindowsProjectMemoryRepository.cpp:5644-5653 | in every run in which an operation is completed, the active session is the successor of the operation completed last |
| ContinuityProtocol.HandoffsAreRequested | src/Persistence/Windows/WindowsProjectMemoryRepository.cpp:5126-5260 | in every run each operation was asked for under its key, and its durable handoff is the one asked for, but for the successor |
| ContinuityProtocol.AcknowledgementsAreExact | src/Persistence/Windows/WindowsProjectMemoryRepository.cpp:5672-5800 | in every run each acknowledged operation was acknowledged for exactly its handoff, successor, adapter and durable document |
| ContinuityProtocol.RecordedFactsAreFinal | src/Persistence/Windows/WindowsProjectMemoryRepository.cpp:5472-5670 | a recorded successor, acknowledgement or terminal outcome never changes |
| ContinuityProtocol.OneSuccessorPerOperation | src/Application/ContinuityCoordinator.cpp:302-403 | with a host that honours the idempotency key, an operation has at most one host session, and a recorded successor is that session |
| ContinuityProtocol.WithoutIdempotencyTwoSessions | src/Application/ContinuityCoordinator.cpp:302-325 | a concrete run, from an empty project through preparation to SuccessorCreating, in which two coordinators that both found no session leave two for one operation, because the host ignores the key |
| ContinuityProtocol.RunKeepsInv | src/Persistence/Windows/WindowsProjectMemoryRepository.cpp:5126-6015 | every transaction and host step keeps the invariant and only adds to what is recorded |
| ContinuityCoordinator.Coordinator.ResumeCheckpoint | src/Application/ContinuityCoordinator.cpp:115-135 | a checkpoint in retry wait resumes only to preparation |
| ContinuityProtocol.TransactionKeepsInv | src/Persistence/Windows/WindowsProjectMemoryRepository.cpp:5472-6015 | compare-and-set, acknowledgement and retry recording keep the invariant, whatever state they find |
| ContinuityRepository.RetryWaitIsNotCancellable | src/Persistence/Windows/WindowsProjectMemoryRepository.cpp:5516-5531 | the repository refuses every transition from retry wait to cancelling |
| ContinuityProtocol.CancellableInRuns | src/Persistence/Windows/WindowsProjectMemoryRepository.cpp:5472-5560 | in every reachable state, the transition of an unfinished operation to cancelling commits if and only if the operation is not in retry wait and a transition is left |
| ContinuityProtocol.CancellableExactly | src/Persistence/Windows/WindowsProjectMemoryRepository.cpp:5472-5560 | the same of every state that satisfies the invariant |
| ContinuityProtocol.RetryWaitRefusesRecovery | src/Application/ContinuityCoordinator.cpp:707-733 | a concrete run: a checkpoint is prepared, fails, waits for its retry, and refuses to be cancelled |
| ContinuityCoordinator.Coordinator.Checkpoint | src/Application/ContinuityCoordinator.cpp:86-188 | a success is past preparation, out of retry wait and answers its durable handoff; undisturbed it persists the checkpoint, of an operation that is there or of a new one |
| ContinuityCoordinator.Coordinator.RecordCheckpointIntent | src/Application/ContinuityCoordinator.cpp:136-152 | the intent is durable, or the failure says so |
| ContinuityCoordinator.Coordinator.PersistCheckpoint | src/Application/ContinuityCoordinator.cpp:153-175 | the checkpoint is marked persisted only with its durable handoff |
| ContinuityCoordinator.Coordinator.Rollover | src/Application/ContinuityCoordinator.cpp:219-494 | the step limit is never the reason to fail, whoever interferes; a success is terminal and durable, acknowledged exactly if completed, and answers with the host session of the successor exactly if the call itself created or bootstrapped it; undisturbed it succeeds, completes all but a cancellation, and makes the successor the active session |
| ContinuityCoordinator.Coordinator.Advance | src/Application/ContinuityCoordinator.cpp:258-490 | each iteration fails or raises a rank on states; retry wait is left only to the state it came from; the successor is answered exactly from creation and bootstrap |
| ContinuityCoordinator.Coordinator.CreateSuccessor | src/Application/ContinuityCoordinator.cpp:302-325 | the recorded successor is the reconciled host session |
| ContinuityCoordinator.Coordinator.BootstrapSuccessor | src/Application/ContinuityCoordinator.cpp:341-403 | the durable handoff is sent to exactly the recorded successor, and what is recorded is the acknowledgement of exactly that session, adapter and document |
| ContinuityCoordinator.Coordinator.ResumeRetry | src/Application/ContinuityCoordinator.cpp:436-460 | a due retry resumes the state it came from |
| ContinuityCoordinator.Coordinator.CompleteRollover | src/Application/ContinuityCoordinator.cpp:419-435 | a success is durably completed; undisturbed, the completion makes the successor the active session |
| ContinuityCoordinator.Coordinator.Resume | src/Application/ContinuityCoordinator.cpp:496-659 | a success is the durable completed operation, whose successor was sent the durable handoff again and acknowledged exactly it; undisturbed, the completion makes the successor the active session, and what can be resumed is |
| ContinuityCoordinator.Coordinator.SealPredecessor | src/Application/ContinuityCoordinator.cpp:626-653 | an acknowledged operation is completed with the same acknowledgement; undisturbed, the completion makes the successor the active session |
| ContinuityCoordinator.RecoverAll | src/Application/ContinuityCoordinator.cpp:661-750 | over the projects of the registry, in order: every inspected operation is counted as resumed, cancelled or failed; each one counted as resumed or cancelled is a different project with an operation that was unfinished and is durably over, or cancelled; a lapsed context fails the call |
| ContinuityCoordinator.Coordinator.Recover | src/Application/ContinuityCoordinator.cpp:680-745 | the part of one project: its active operation is counted once; what is counted as resumed or cancelled was unfinished before the call and is durably over, or cancelled, after it; undisturbed, with a repository that answers, it is cancelled exactly if it can be, and resumed if nothing is in its way |
| ContinuityCoordinator.Coordinator.CancelOperation | src/Application/ContinuityCoordinator.cpp:707-733 | a reported cancellation is durable; undisturbed, with a repository that answers, an operation is cancelled if and only if it is unfinished, not in retry wait, and has the transitions left that it needs |
| ContinuityCoordinator.Coordinator.ReconcileSession | src/Application/ContinuityCoordinator.cpp:752-794 | finds or creates the session of the key; with a query or an honoured key it creates no second one |
| ContinuityCoordinator.Coordinator.RecordRetryBestEffort | src/Application/ContinuityCoordinator.cpp:796-813 | undisturbed, with time left and a repository that answers, a failure in a state that allows it is recorded to resume exactly that state after the delay; with no time left, or in another state, nothing changes; in any case nothing recorded is lost |
| ContinuityCoordinator.Coordinator.NotCancellableFromRetry | src/Domain/ContinuityModels.cpp:109-152 | in every reachable state, cancelling an operation in retry wait conflicts |
| RepositoryCacheProperties.BoundedWithoutDuplicates | src/Application/ProjectMemoryRepositoryCache.cpp:65-118 | in every interleaving entries and pending opens stay within the maximum and no project occurs twice |
| RepositoryCacheProperties.NothingIsRedundant | src/Application/ProjectMemoryRepositoryCache.cpp:131-154 | an open that publishes never finds an entry for its project, so the branch for a redundant repository is dead |
| RepositoryCacheProperties.CrashCondition | src/Application/ProjectMemoryRepositoryCache.cpp:98-157 | a missing repository reported as success is dereferenced exactly when the publication lock is refused or shutdown was requested |
| RepositoryCacheProperties.CrashingRun | src/Application/ProjectMemoryRepositoryCache.cpp:98-157 | a concrete run that does: an open reserves, its opener answers success without a repository, a shutdown is requested, the open publishes |
| RepositoryCacheProperties.HeldStaysCached | src/Application/ProjectMemoryRepositoryCache.cpp:76-200 | a repository a caller holds is not closed by eviction or close, and leaves the cache only by the drain of a shutdown |
| RepositoryCacheProperties.Conservation | src/Application/ProjectMemoryRepositoryCache.cpp:48-260 | every repository the opener returned is in exactly one place, cached, in the hands of one thread, or closed, and none is closed twice |
| RepositoryCacheProperties.AllClosedAtTheEnd | src/Application/ProjectMemoryRepositoryCache.cpp:219-260 | when all calls and the shutdown have returned, everything opened is closed and nothing is pending |
| RepositoryCacheProperties.DrainIsNotStuck | src/Application/ProjectMemoryRepositoryCache.cpp:232-234 | a shutdown waits for nobody but opens still inside |
| RepositoryCacheProperties.ShutdownOrderIsByProject | src/Application/ProjectMemoryRepositoryCache.cpp:236-241 | a shutdown closes in the order of projects |
| RepositoryCacheProperties.VictimIsLeastRecentlyUsed | src/Application/ProjectMemoryRepositoryCache.cpp:76-96 | the evicted entry is the least recently used one nobody holds, up to uses before the last wrap of the generation counter |
| RepositoryCacheProperties.EveryIssueIsPlaced | src/Application/ProjectMemoryRepositoryCache.cpp:98-157 | the places account for exactly what the opener returned |
| RepositoryCacheOrigins.CachedForItsProject | src/Application/ProjectMemoryRepositoryCache.cpp:117-157 | in every run each cached repository was opened for exactly its entry's project and for no other |
| RepositoryCacheOrigins.OpensGiveTheirProject | src/Application/ProjectMemoryRepositoryCache.cpp:65-157 | in every run an open hands out only a repository that an opener returned for exactly the project asked for, and renews that project's entry; nothing else hands one out |
| RepositoryCacheOrigins.OpenFindsItsProject | src/Application/ProjectMemoryRepositoryCache.cpp:65-70 | where the project has an entry and no shutdown was requested, an open hands its repository out |
| RepositoryCacheOrigins.OpenedOnce | src/Application/ProjectMemoryRepositoryCache.cpp:98-157 | no opener answers with a repository that was answered before |
| RepositoryCacheProperties.RunKeepsInv | src/Application/ProjectMemoryRepositoryCache.cpp:48-347 | every section under the lock keeps the invariant |
| RepositoryCache.RepositoryCache.BeginOpen | src/Application/ProjectMemoryRepositoryCache.cpp:61-98 | the first section of an open: a hit exactly if the project has an entry, answering its repository and renewing it alone; busy exactly if the project is being opened or everything is held at the limit; else a reservation, for which at the limit the least recently used entry nobody holds makes way |
| RepositoryCache.RepositoryCache.PublishOpen | src/Application/ProjectMemoryRepositoryCache.cpp:117-157 | the publishing section: published exactly if the opener answered a repository of this project, no shutdown came and there is no entry; what is not published is to be closed |
| RepositoryCache.RepositoryCache.BeginClose | src/Application/ProjectMemoryRepositoryCache.cpp:168-207 | a close detaches exactly the entry of the project, if nobody holds it |
| RepositoryCache.RepositoryCache.BeginShutdown | src/Application/ProjectMemoryRepositoryCache.cpp:222-231 | only one caller performs the shutdown |
| RepositoryCache.RepositoryCache.TakeEntries | src/Application/ProjectMemoryRepositoryCache.cpp:232-238 | the drain empties the cache and sorts what it takes |
| RepositoryCache.RepositoryCache.CompleteShutdown | src/Application/ProjectMemoryRepositoryCache.cpp:243-246 | marks the shutdown complete and changes nothing else |
| RepositoryCache.RepositoryCache.SelectVictim | src/Application/ProjectMemoryRepositoryCache.cpp:78-89 | the loop finds the specified victim |
| RepositoryCache.RepositoryCache.Find | src/Application/ProjectMemoryRepositoryCache.cpp:306-313 | the first entry of a project |
| RepositoryCache.RepositoryCache.NextGeneration | src/Application/ProjectMemoryRepositoryCache.cpp:337-347 | the counter advances, and on its wrap every entry is aged to zero first |
| RepositoryCache.RepositoryCache.ErasePending | src/Application/ProjectMemoryRepositoryCache.cpp:320-325 | removes every occurrence of a project and keeps the others in order |
| LegacyContinuityWriter.Writer.Persist | src/Application/LegacyContextContinuityService.cpp:1091-1218 | a success committed the packet built from exactly the record version it replaced, among any other writers; its agents come from what the session source said: the open sessions and binding read at the start, and, where prior agents are kept, exactly the answers of the last attempt; at most nine attempts; it fails only after nine conflicts, for a named record that is not there, over an invalid list of sessions, or where the store, the source, the caller or the domain failed or refused; an explicit identity is the one written and was there; an implicit checkpoint or handoff continues a packet that is ready to resume if and only if another writer made it ready during the call |
| LegacyContinuityWriter.FinalizedInBetween | src/Application/LegacyContextContinuityService.cpp:1185-1216 | a concrete interleaving in which it does: the packet selected is finalized before the first attempt, and the second attempt builds on it |
| LegacyContinuityWriter.Writer.TryUntilSaved | src/Application/LegacyContextContinuityService.cpp:1135-1218 | the loop of attempts from what was read: what it commits last is built from the version it replaced, and an identity that no commit had left ready before is not taken from a ready one |
| LegacyContinuityWriter.Writer.Gather | src/Application/LegacyContextContinuityService.cpp:1096-1133 | what a write reads before its first attempt: the record it continues or a draft under an unused identity, the open sessions, the binding, and whether prior agents are kept; an implicit checkpoint or handoff starts on nothing that was ready |
| LegacyContinuityWriter.Writer.Attempt | src/Application/LegacyContextContinuityService.cpp:1142-1175 | one attempt replaces exactly what was read, or inserts under an unused identity, or conflicts without effect; the packet holds what the session source answered meanwhile |
| LegacyContinuityWriter.Writer.Reload | src/Application/LegacyContextContinuityService.cpp:1185-1216 | after a conflict: the current version, or a new draft unless a record was named |
| LegacyContinuityWriter.Writer.SelectInitial | src/Application/LegacyContextContinuityService.cpp:806-850 | the named record, else the record of the client with the highest sequence, which an implicit checkpoint or handoff continues only if it is not ready to resume |
| LegacyContinuityWriter.Repository.Latest | src/Persistence/Windows/WindowsLegacyContinuityRepository.cpp:1015-1045 | the record of the client with the highest sequence, the smallest identity among equals; nothing exactly if the client has none |
| LegacyContinuityWriter.Writer.CurrentSnapshots | src/Application/LegacyContextContinuityService.cpp:852-872 | the open sessions the source listed for the client, in the order of sessions; refused if one is invalid, occurs twice or exceeds the cap |
| LegacyContinuityModel.SortedBySessionIs | src/Application/LegacyContextContinuityService.cpp:117-146 | sorting orders the snapshots and keeps each |
| LegacyContinuityWriter.Writer.BuildPacket | src/Application/LegacyContextContinuityService.cpp:930-1089 | the field by field edits build the specified packet, for exactly the sessions that the source answered are closed, of exactly those the merge asks about |
| LegacyContinuityModel.SignedIs | src/Application/LegacyContextContinuityService.cpp:942-950 | signing changes nothing but source and client; a preserving write keeps the client there is, and the source too unless it finalizes; any other names its own |
| LegacyContinuityModel.TextsTwice | src/Application/LegacyContextContinuityService.cpp:953-974 | the texts of a patch say what the fields should be: applying them again changes nothing, whatever the mode |
| LegacyContinuityModel.TextsLeave | src/Application/LegacyContextContinuityService.cpp:953-974 | the texts of a patch leave lists, narrative, resume seed, client and identity alone |
| LegacyContinuityModel.ListsTwice | src/Application/LegacyContextContinuityService.cpp:984-1004 | the same of its resume seed and lists |
| LegacyContinuityModel.ListsLeave | src/Application/LegacyContextContinuityService.cpp:984-1004 | the resume seed and lists of a patch leave texts, narrative, client and identity alone |
| LegacyContinuityModel.DefaultsAre | src/Application/LegacyContextContinuityService.cpp:1027-1063 | automatic defaults touch at most goal, status, next actions and narrative, never a goal or list there is; checkpoints and handoffs get none |
| LegacyContinuityModel.SeededIs | src/Application/LegacyContextContinuityService.cpp:1066-1084 | finishing never takes readiness back and never replaces a seed somebody wrote; a renewed seed is made from the finished packet |
| LegacyContinuityWriter.Writer.MergeSnapshots | src/Application/LegacyContextContinuityService.cpp:874-928 | the two loops compute the specified merge for exactly the sessions the source answered are closed |
| LegacyContinuityWriter.Writer.MergeOpenPrior | src/Application/LegacyContextContinuityService.cpp:886-911 | prior snapshots that the source answers are open, each asked about and kept once, in their current form |
| LegacyContinuityWriter.Repository.CompareExchange | src/Persistence/Windows/WindowsLegacyContinuityRepository.cpp:1088-1189 | a conflict is answered only if the expected version does not stand; when it does not stand nothing changes, and the answer is a conflict or a fault of the store; a success replaced exactly that version under a larger sequence |
| LegacyContinuityModel.MergedIsSound | src/Application/LegacyContextContinuityService.cpp:874-928 | the merged list has no session twice, is within the cap, omits sessions found closed, shows current data where there is any, and misses an open current session only when full |
| LegacyContinuityModel.BuildKeepsIdentity | src/Application/LegacyContextContinuityService.cpp:930-1089 | the identity is kept, and the creation time to the millisecond; readiness is never taken back; the agents are the merged or the current list, with their times cut to milliseconds |
| LegacyContinuityModel.WhatBuildFills | src/Application/LegacyContextContinuityService.cpp:942-1084 | who a packet names as its author, and what it says where neither record nor patch says anything: the active binding first, then the default of an automatic write; a seed nobody wrote is made from the finished packet |
| LegacyContinuityModel.NarrativeOfBuild | src/Application/LegacyContextContinuityService.cpp:975-1062 | the narrative of every packet built: the one the patch names, unless there is one that a budget or filling write must keep; then, for a budget write and an automatic one that finalizes, the note after a blank line unless it occurs already |
| LegacyContinuityModel.BudgetKeeps | src/Application/LegacyContextContinuityService.cpp:942-1000 | a budget write replaces neither the key files nor the working directory that the record has |
| LegacyContinuityModel.RefusedByRules | src/Application/LegacyContextContinuityService.cpp:930-1089 | nothing but the domain refuses to build a packet |
| LegacyContinuityModel.CreationStays | src/Application/LegacyContextContinuityService.cpp:97-115 | a write on top of a packet that was built keeps its creation time exactly: cutting times twice is cutting them once |
| LegacyContinuityModel.AgentsOfBuild | src/Application/LegacyContextContinuityService.cpp:1006-1016 | every packet built holds each session once and within the cap |
| LegacyContinuityModel.ExplicitWriteTouchesOnlyItsFields | src/Application/LegacyContextContinuityService.cpp:930-1089 | an explicit write gives each of the eleven patch fields what its patch names and leaves the others as the record it replaces has them; only a blank goal or directory may come from the binding, and a seed nobody wrote is renewed |
| LegacyContinuityModel.WhatFillingReplaces | src/Application/LegacyContextContinuityService.cpp:953-1084 | an automatic write that only fills replaces of what the record says exactly the status, when it finalizes and no status is named, the narrative, to which finalizing adds a note, and a resume seed that nobody wrote |
| LegacyContinuityModel.DifferentEditsBothSurvive | src/Application/LegacyContextContinuityService.cpp:930-1089 | two explicit writes that name different fields, one on top of the other, both survive, for each of the eleven fields a patch can name |
| ManagedRunProperties.TerminalIsFinal | src/Application/ManagedRunService.cpp:328-451 | in every interleaving of the thread with start, cancel, pause, resume, reaping and shutdown, a terminal record never changes |
| ManagedRunProperties.UnfinishedAreBounded | src/Application/ManagedRunService.cpp:229-264 | at most sixteen workers and sixteen read-only runs are unfinished; a working run is the one listed under its id |
| ManagedRunProperties.AtMostOneMoreDispatch | src/Application/ManagedRunService.cpp:596-672 | while a run is asked to pause or stop it calls the provider or a tool at most once more, and not at all unless it had passed the boundary for that call, or had read no pause and is not asked to stop |
| ManagedRunProperties.CancelStopsDispatch | src/Application/ManagedRunService.cpp:328-372 | after a cancellation at most one more call, for ever |
| ManagedRunProperties.StopIsKept | src/Application/ManagedRunService.cpp:328-372 | a request to stop is never taken back |
| ManagedRunProperties.ShutdownIsKept | src/Application/ManagedRunService.cpp:453-491 | after a shutdown no run is added, and a run that is stopping or done stays so |
| ManagedRunProperties.CancellingUntilPublished | src/Application/ManagedRunService.cpp:338-349 | a cancelled run shows as cancelling until its thread publishes |
| ManagedRunProperties.CancellationHiddenExactly | src/Application/ManagedRunService.cpp:584-672 | for a working run, some continuation shows a cancelled run as running or paused again if and only if the cancellation finds the thread about to show something without coming to another boundary: it read a pause and has not shown it, passed the boundary that ended a pause, passed the boundary before a turn or before the last call of a reply, is in such a turn or call, or asks continuity for a successor |
| ManagedRunProperties.CancelledBetweenCalls | src/Application/ManagedRunService.cpp:974-1056 | a cancellation during a call that is not the last of its reply is never hidden: a boundary comes first |
| ManagedRunProperties.StaysVisible | src/Application/ManagedRunService.cpp:584-672 | a cancellation that finds nothing about to be shown stays visible until the run is over |
| ManagedRunProperties.CanHide | src/Application/ManagedRunService.cpp:584-672 | where something is about to be shown, the thread can go on and show it |
| ManagedRunProperties.CancellationCanBeHidden | src/Application/ManagedRunService.cpp:584-594 | a concrete run: the thread asks the provider, the run is cancelled, the reply is shown as running |
| ManagedRunModel.RunKeepsInv | src/Application/ManagedRunService.cpp:132-594 | every section keeps the invariant |
| ManagedRunService.Service.Admit | src/Application/ManagedRunService.cpp:228-284 | refused exactly when shut down, the id is bound, the kind is at its limit, the save fails or its thread cannot be created; otherwise the fresh run is listed |
| ManagedRunService.Service.Start | src/Application/ManagedRunService.cpp:132-290 | after a shutdown every start is refused; a listed id answers its own record or a conflict, where requests that differ only in continuity are the same; an id only the store knows answers what the store says or a conflict; only an unknown id is admitted, by its own admission |
| ManagedRunService.Service.Cancel | src/Application/ManagedRunService.cpp:328-372 | the listed run is asked to stop and no longer to pause, and shows as cancelling if it was running or paused; nothing else changes |
| ManagedRunService.Service.Pause | src/Application/ManagedRunService.cpp:373-401 | a running run is asked to pause; nothing else changes |
| ManagedRunService.Service.Resume | src/Application/ManagedRunService.cpp:403-451 | a running or paused run is no longer asked to pause and shows as running; nothing else changes |
| ManagedRunService.Service.Reap | src/Application/ManagedRunService.cpp:519-534 | exactly the finished independent runs leave the list |
| ManagedRunService.Service.ShutDown | src/Application/ManagedRunService.cpp:453-491 | afterwards every run has been asked to stop or is done |
| ManagedRunWorker.Worker.Run | src/Application/ManagedRunService.cpp:822-1110 | unless the process ends first, the run ends in a terminal record whose totals are those of the turns acted on; a completed run answers with the text of its last reply; of every reply but the last, exactly the calls the run permits were invoked, and of all of them if it completed; it is failed only over a failure outside or a tool called where there are none, and cancelled only over a request to stop or such a failure |
| ManagedRunWorker.Worker.Ask | src/Application/ManagedRunService.cpp:903-945 | a reply is acted on only if its response was not seen before; what is sent follows from the turn before; totals stay the bounded sums |
| ManagedRunWorker.Worker.Accept | src/Application/ManagedRunService.cpp:929-945 | a new reply is accounted for, saved and shown, or the run has failed over the store |
| ManagedRunWorker.Worker.AwaitBoundary | src/Application/ManagedRunService.cpp:596-672 | called where the thread comes to a boundary, it passes only after reading no request to pause and then none to stop; otherwise the thread can only finish, as cancelled only if it was asked to stop, as failed only over the deadline of a worker or the store |
| ManagedRunWorker.Worker.Prepare | src/Application/ManagedRunService.cpp:841-892 | whether there is an authority, and that it offers exactly the tools within the limits of the run; or the run is over at once, for a cause |
| ManagedRunWorker.Worker.Successor | src/Application/ManagedRunService.cpp:1057-1089 | a conversation moves only to a named successor, only if the request, the record and the service allow continuity, and its record is saved before the move |
| ManagedRunWorker.Worker.Carry | src/Application/ManagedRunService.cpp:972-1104 | the calls of a reply, exactly those the run permits invoked, and what is sent next: their results, or the instruction to continue |
| ManagedRunWorker.Worker.EndRound | src/Application/ManagedRunService.cpp:1050-1089 | after the last call of a reply the round is saved without pending calls and shown before continuity is asked |
| ManagedRunWorker.AccountKeeps | src/Application/ManagedRunService.cpp:930-939 | accounting a reply keeps the totals of the record those of all replies acted on |
| ManagedRunWorker.Worker.InvokeAll | src/Application/ManagedRunService.cpp:972-1049 | each call of a reply is answered in order, each after a boundary of its own; the invocations added are exactly the calls that the run permits |
| ManagedRunWorker.Worker.Handle | src/Application/ManagedRunService.cpp:974-1040 | one call: a new boundary, then the tool exactly if the run permits it, a worker's under a policy read just before that still grants its scope, else a refusal in its place; a call with an invalid identity ends the run |
| ManagedRunWorker.Worker.Permitted | src/Application/ManagedRunService.cpp:998-1003 | a call is permitted if and only if the run is neither read-only nor scoped, or an offered tool has its name and is within the effect limit; which is exactly when the run permits it |
| ManagedRunWorker.Worker.StillMay | src/Application/ManagedRunService.cpp:1004-1012 | a worker may go on only under a policy, read now, that still grants its scope |
| ManagedRunWorker.Worker.Offer | src/Application/ManagedRunService.cpp:882-889 | the tools advertised are exactly those of the catalog within the limits of the run |
| ManagedRunWorker.Worker.Conclude | src/Application/ManagedRunService.cpp:950-962 | the output is the text, cut at a character boundary if too long; completed only if not asked to stop |
| ManagedRunWorker.Refresh | src/Application/ManagedRunService.cpp:536-566 | a worker goes on exactly while the current policy grants all of its scope |
| ManagedRunTalk.SaturatingSum | src/Application/ManagedRunService.cpp:931-937 | adding with a bound at each step is bounding the sum at 2^64-1 |
| ManagedRunWorker.OutputIsText | src/Application/ManagedRunService.cpp:951-956 | a cut output is still text and only what does not fit is cut |
| AgentCatalogModel.PermutationIndependent | src/Application/AgentCatalog.cpp:827-935 | every permutation of the documents gives the same snapshot and summary, or the same failure |
| AgentCatalogModel.ReloadedIsGood | src/Application/AgentCatalog.cpp:862-928 | a loaded snapshot is strictly sorted, within the cap, and holds every mandatory agent; each entry is the winner for its identity |
| AgentCatalogModel.CustomWins | src/Application/AgentCatalog.cpp:862-901 | a usable custom definition beats a built-in one |
| AgentCatalogModel.TableHoldsWinners | src/Application/AgentCatalog.cpp:862-901 | each agent is defined by its winning document, or by the fallback when none defines it |
| AgentCatalogModel.WinnerExists | src/Application/AgentCatalog.cpp:862-901 | an agent that some document defines has a winner |
| AgentCatalogModel.RetainedAre | src/Application/AgentCatalog.cpp:903-919 | exactly the mandatory entries and the first optional ones are kept |
| AgentCatalogModel.RetainedCount | src/Application/AgentCatalog.cpp:903-919 | what is kept is within the capacity and the mandatory entries |
| AgentCatalogModel.SummaryCounts | src/Application/AgentCatalog.cpp:872-930 | a reload that succeeds had no fatal document; its summary counts usable and unusable documents, and entries kept and dropped of all identities known; one that a document ends names that document's error |
| AgentCatalogModel.SortedIsUnique | src/Application/AgentCatalog.cpp:862-870 | the sorted order of documents does not depend on their order before |
| AgentCatalog.AgentCatalog.Reload | src/Application/AgentCatalog.cpp:827-935 | the snapshot is replaced as a whole or left as it is; the summary counts the usable and the unusable documents, and of all identities known those kept and those dropped |
| AgentCatalog.AgentCatalog.Get | src/Application/AgentCatalog.cpp:962-985 | binary search finds what linear search finds |
| AgentCatalog.LowerBound | src/Application/AgentCatalog.cpp:1035-1046 | the first position not below the identity |
| AgentCatalog.LowerBoundIsLookup | src/Application/AgentCatalog.cpp:962-985 | comparing at the lower bound is searching the whole list |
| AgentCatalog.RecommendedIsFirst | src/Application/AgentCatalog.cpp:987-1032 | the recommendation is the agent of the rule of smallest index that the task mentions, and explore where it mentions none |
| AgentCatalog.AgentCatalog.Recommend | src/Application/AgentCatalog.cpp:987-1032 | the agent of the first rule whose keyword the task mentions, and explore where it mentions none; the default agent is never missing |
| AgentCatalog.AgentCatalog.CheckSizes | src/Application/AgentCatalog.cpp:837-861 | refuses exactly the document sets over a limit |
| AgentCatalog.AgentCatalog.ParseAll | src/Application/AgentCatalog.cpp:872-901 | the loop over sorted documents is the specified fold |
| AgentCatalog.AgentCatalog.Keep | src/Application/AgentCatalog.cpp:903-917 | the loop fills the specified snapshot |
| DashboardJson.PreflightIsExact | src/Dashboard/DashboardManagerJsonCodec.cpp:728-796 | the budget accepts a status exactly when the written text fits the limit, and the text reads back as the document |
| DashboardReading.EncodedStatusReadsBack | src/Dashboard/DashboardApplicationJsonCodec.cpp:629-720 | what is written reads back as a document whose members, looked up by name, say the status: each of its fields, the state by its text, the time of start to the second |
| DashboardReading.MembersSayOneStatus | src/Dashboard/DashboardApplicationJsonCodec.cpp:329-345 | members say at most one status, up to the second of its start |
| DashboardJson.BudgetFitsSortedDocument | src/Dashboard/DashboardManagerJsonCodec.cpp:879-912 | the same for the codec that sorts its members |
| DashboardReading.SortedStatusReadsBack | src/Dashboard/DashboardManagerJsonCodec.cpp:879-912 | what the codec that sorts its members writes reads back as the same status |
| DashboardJson.Preflight | src/Dashboard/DashboardManagerJsonCodec.cpp:322-387 | accepts exactly the documents within the limit |
| DashboardJson.MeasureStatus | src/Dashboard/DashboardManagerJsonCodec.cpp:728-796 | adds exactly the size of the status document, or overflows the limit |
| DashboardJson.Encode | src/Dashboard/DashboardApplicationJsonCodec.cpp:666-720 | the whole text within the limit, or nothing |
| DashboardJson.WriteStatus | src/Dashboard/DashboardApplicationJsonCodec.cpp:666-720 | appends exactly the text of the status document |
| DashboardJson.JsonWriter.String | src/Dashboard/DashboardApplicationJsonCodec.cpp:131-162 | the quoted and escaped text, or a refusal |
| DashboardJson.JsonBudget.String | src/Dashboard/DashboardManagerJsonCodec.cpp:340-355 | the size of the escaped text |
| JsonText.SizeIsLength | src/Dashboard/DashboardManagerJsonCodec.cpp:322-387 | every document is measured at the length of its text |
| JsonText.OrderDoesNotMatter | src/Dashboard/DashboardManagerJsonCodec.cpp:728-796 | every order of the members measures and writes the same number of bytes |
| JsonText.StringRoundTrip | src/Dashboard/DashboardApplicationJsonCodec.cpp:131-162 | unescaping under section 7 of RFC 8259 gives back exactly what was escaped |
| JsonText.RoundTrip | src/Dashboard/DashboardApplicationJsonCodec.cpp:55-177 | reading back a written document gives the document |

## Left out

Everywhere:

- Allocation failure, the catch-all handlers around each operation, and the texts of error messages. Where a property compares HTTP rejections, each reason stands for one status, code and message.
- Operating system threads, condition variables and deadlines: waiting is the environment acting, a deadline or a cancelled context is a fault that may occur at any external call, a clock is an arbitrary nondecreasing input.
- SQL, files and sockets. The repository transactions of the handoff protocol and the packet repository are modelled from the code that issues the SQL, each as one atomic step.
- Collisions of generated identities and of content hashes: identities come from one generator that never repeats.

By part:

- HTTP routing, response composition and connection handling: dispatch tables around the parser.
- Scheduler: parsing of stored and requested JSON, the size limit of the store, and changes to the store file by others. The encoding of a record is an arbitrary function to well-formed text.
- Scheduler.Scheduler.ClearDispatch: the authority check and the narrowing of tools and scope before a dispatch may refuse for reasons the model does not see, because policies and scopes are not modelled.
- Scheduler.Scheduler.Initialize: the checks of each stored record's JSON on loading are left out, because the store is a list of records here. Distinct identities and intervals in range, which they also check, hold of every store the scheduler writes (`ScheduleModel.VersionOk`); a store that others damaged is not modelled.
- Scheduler.Scheduler.Create: the validation of requested tools and scope is left out, because a record's `spec` stands for the fields no operation inspects.
- ScheduleRuns.ForgottenRunBreaksTheRule: the records are built by the functions that specify admission and observation and satisfy the invariants of every run; the requests and answers that lead to them are not spelled out.
- Scheduler.Scheduler.Reconcile: assumes a run service that keeps finished runs finished and known; `ScheduleRuns.ForgottenFinishedRun` says what breaks without it.
- Continuity: document encoding and validation, project reset, the pending-handoff query and admission of calls.
- The cache's opener, which may be shut down before an in-flight repository is closed: that order is not guaranteed by the code and not stated.
- Packets: narrative truncation, the default resume seed and packet validity are arbitrary functions; the projection written after a commit, listing, repair and reset are not modelled. Other writers are writers of this service: they insert under fresh identities and never take readiness back, as `LegacyContinuityModel.BuildKeepsIdentity` shows of every packet it builds. Importing a record under an identity that was erased before is excluded.
- Managed runs: calls made through continuity automation are not counted as dispatches, so `ManagedRunProperties.AtMostOneMoreDispatch` is about the provider and tool calls of the run itself.
- Managed runs: the durable record, which a resume may overwrite outside the lock; the content of tool results and of the work list given to continuity; image previews; the context-budget decision, which is an arbitrary outcome; the names of tools a worker can never inherit.
- ManagedRunService.Service.Start: the record found in the store is a parameter, since the durable record is not modelled. Validation of the request and resolution of its authority, which may refuse it before anything is read, are left out. The failed record that is saved when a thread cannot be created is part of the durable record.
- ManagedRunWorker.Worker.Run: the number of turns and pauses is bounded by the life of the process, which is arbitrary; the totals and the conversation hold however long it is.
- Agent catalog: the parsing of one definition is an arbitrary function of the document; the message of a fatal failure, which may depend on the order of the documents, is not compared.
- JSON: the reader reads back what the writer can emit (objects, strings, integers, booleans, null, escapes up to U+00FF); arrays, fractions, the strict reader of requests, and responses other than the manager status are not modelled.
- Application services that validate and delegate (operational service, memory services, manager controller, client presence), the agent session service, continuity automation, policy, embedded agent texts, ComfyUI, packaging and the user interface.
