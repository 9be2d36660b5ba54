# zoa: durable queue, task tree, conversation store, agent loop

Zoa runs agents on top of three SQLite files: a gateway that queues messages and writes replies, a runtime that runs
tasks in a tree, and a conversation store whose nodes form an append-only tree named by hashes. This project models
the parts that must stay correct when several workers run at once, crash, lose a lease or act late, and the small text
algorithms around them, and proves what they promise.

Two kinds of modules stand side by side. Modules named after a component hold its operations: classes whose methods
update their fields in place, each proved equal to a function of the old state. Modules ending in `Protocol` put those
transactions into a state machine of any number of actors, where one step is one transaction and every clock reading,
crash, delay and outside answer is arbitrary; their theorems speak about every state of every run
(`IsRun(states, steps)`). `dafny verify dfyconfig.toml` checks the whole project.

| module | what it models |
|---|---|
| `TimeText` | instants as RFC 3339 text (section 5.6 of RFC 3339) with trailing zeros of the fraction dropped, and their order as text |
| `GatewayState`, `JobCompleter`, `GatewayPump`, `GatewayProtocol`, `GatewayTiming`, `GatewayMessages` | the inbound and outbox tables, the retry policy, one pump; any number of pumps, crashes, late heartbeats and stale tokens; when the queue moves; and the way of a message from its receipt to its reply |
| `SlackBridge` | draining the outbox in order, and forgetting repeated events |
| `TaskTree`, `TaskProtocol`, `TaskOutcomes` | task records, breadth-first cancellation, the goroutines, cancel calls, waiters and log around them, and what tasks end with |
| `ConversationStore`, `ConversationProtocol`, `ConversationLeases`, `ConversationPairing` | hash-named nodes, refs, leases, runners sharing refs through leased handles, how long a lease lasts, and where tool messages end up |
| `Pairing`, `Executor`, `RunOutcomes` | paired tool calls and results, the agent loop with interrupts at any point, and what its runs end with |
| `Bytes`, `TailBuffer`, `Truncate`, `BashOutput`, `ReadTool` | captured output, cut texts, what is shown of a command's output, and paged reading of files |
| `TraceFilter` | dropping whole task trees from a recorded trace |
| `Wrappers`, `GoStrings` | Option and Result; trimming and decimal printing as in Go |

Five results say where the code does less than one might expect, each with its exact condition:

- Due times are compared as text. `WholeSecondReadsLate` shows a message that is due and not claimable;
  `TextTestIsTimeTestExactly` says for which pairs of instants the test is right, and `DueByTextWithinASecond` and
  `QueueMovesOnTime` bound the error by one second.
- A stored reply with tool calls can stay unanswered for good. `Executor.Run` leaves one exactly when
  `UnansweredTurn`, computed from the interrupt and the appends, names a turn: its reply was stored, and then either the
  very next check saw the interrupt or the tool results could not be stored. `UnansweredOnlyAtThatMoment` gives the one
  check per turn at which an interrupt does this, `LeaveCallUnanswered` runs the loop into it, and
  `SessionPairedExactly` says that a chain of any number of runs is paired exactly when no run did.
- A text file is taken for binary exactly when there is a NUL byte among its first 8192 bytes or they end inside a
  character (`TextTakenForBinary`), as in `SplitLetterLooksBinary`.
- The system prompt is meant to stand once, at the start of a conversation. Over any number of runs it does exactly when
  no run failed to load a conversation it then managed to append to (`PromptFirstExactly`); `RepeatPrompt` runs the
  executor into it.
- The bash tool keeps only the last two MiB of a command's output and trims them afterwards. `CaptureShownAlike` says for
  every output when the reader cannot tell: exactly when the trimmed capture and the trimmed output are the same text,
  or both are too long to be shown whole. `LongGapLooksShort` is an output of which the tool shows the last three letters
  as if they were all; `CutSpaceLooksLong` is a short one that is shown as cut, because the capture starts inside a wide
  space, whose remaining bytes are no white space any more (`TrimLeftOfCut`).

And three say what the design allows, each with a reachable state: two workers can hold the same attempt number
(`AttemptsCanBeShared`, while `AttemptResolvesAtMostOnce` keeps that harmless); a child whose parent has completed is out
of reach of its grandparent's cancellation (`CancelReachesExactly`, `GrandchildEscapes`); an append needs no valid lease
of its own (`AppendSucceedsExactly`, `ExpiredHandleAppends`).

## Model

| member | source | states |
|---|---|---|
| TimeText.DueByTextExactly | hub/util/gateway/state.go:236-253 | for UTC instants in four-digit years, the text comparison of the claim query holds in exactly the listed cases of the two instants |
| TimeText.DueByTextWithinASecond | hub/util/gateway/state.go:236-253 | the text test never says due a second or more before the due time, and always from one second after it |
| TimeText.TextTestIsTimeTestExactly | hub/util/gateway/state.go:212-213 | the text test agrees with the order of the instants exactly when they do not share a second in which one printed fraction properly extends the other |
| TimeText.WholeSecondReadsLate | hub/util/gateway/state.go:244 | a message due on a whole second is refused for the rest of that second |
| GatewayState.State.InsertInbound | hub/util/gateway/state.go:165-185 | appends one pending row with no attempts, due at once, channel trimmed; returns its id |
| GatewayState.State.HeadOfQueue | hub/util/gateway/state.go:219-228 | finds the least id among the session's pending and processing rows, or 0 |
| GatewayState.State.ClaimDueInboundID | hub/util/gateway/state.go:208-266 | only the head is claimed, and only if it is due or its lease has run out; it gets the next attempt number and a new lease, every other row stays |
| GatewayState.State.InboundByID | hub/util/gateway/state.go:268-312 | reads the row: its message exactly as stored, its attempt count at least 1; or nothing if there is no such row |
| GatewayState.State.ClaimDueInbound | hub/util/gateway/state.go:187-206 | claim and read; a claimed id is always found, so the three tries are never needed, and the worker is given the message of that very row |
| GatewayState.State.RenewInboundLease | hub/util/gateway/state.go:314-332 | extends the lease exactly when the row is in process under this attempt |
| GatewayState.State.MarkInboundRetry | hub/util/gateway/state.go:334-354 | puts the row back with a later due time exactly when it is in process under this attempt |
| GatewayState.State.CompleteInboundSuccess | hub/util/gateway/state.go:356-399 | finishes the row and writes its reply together, exactly when it is in process under this attempt; otherwise nothing changes |
| GatewayState.State.CompleteInboundFailure | hub/util/gateway/state.go:401-445 | the same with status failed and the trimmed error text |
| GatewayState.State.OutboxSince | hub/util/gateway/state.go:512-545 | returns the poll that PollIsExact describes |
| GatewayState.PollIsExact | hub/util/gateway/state.go:512-520 | polled ids are the session's ids above the last one, increasing and without gap; a poll below its limit left nothing behind |
| GatewayProtocol.ExactlyOneReply | hub/util/gateway/state.go:356-445 | in every reachable state a message has exactly one reply if it is done or failed, and none otherwise |
| GatewayProtocol.FinishedIsForever | hub/util/gateway/state.go:361-386 | a finished row never changes again and no reply is ever removed or altered |
| GatewayProtocol.OutboxIsTheAnswers | hub/util/gateway/functions.go:311-350 | the reply table is, in order, exactly the answers of the writes that passed the fence, and a row failed exactly when that write was a failure |
| GatewayProtocol.OneInProcessAtTheHead | hub/util/gateway/state.go:217-228 | per session at most one row is in process, and it is the head of the queue |
| GatewayProtocol.RepliesFollowArrival | hub/util/gateway/functions.go:170 | a session's replies are written in the order its messages were received, with any number of pumps |
| GatewayProtocol.RepliesGoHome | hub/util/gateway/functions.go:311-312 | every reply carries the session and channel of the message it answers |
| GatewayProtocol.AttemptsAreAccountedFor | hub/util/gateway/state.go:238-241 | a row's attempt count is its effective retries plus the reclaims of expired leases plus 1 if it is not pending |
| GatewayProtocol.AttemptResolvesAtMostOnce | hub/util/gateway/state.go:342-348 | for each row and attempt number at most one completion, failure or retry takes effect, even if workers share the number |
| GatewayProtocol.AtMostTwoRequeues | internal/reliable/job_completer.go:84-104 | with three attempts allowed, a row is put back for retry at most twice in any run |
| GatewayProtocol.AttemptsCanBeShared | hub/util/gateway/state.go:187-204 | a reachable state in which two workers handle the same row under the same attempt number |
| GatewayTiming.StepMovesRow | hub/util/gateway/state.go:208-445 | everything one step of the system can do to a row: a claim takes it, a heartbeat of its attempt renews it, a write puts it back or finishes it, and nothing else touches it |
| GatewayTiming.StoredTimesAreStamps | hub/util/gateway/state.go:212-213 | in every reachable state a row's due time and lease end are printed instants |
| GatewayTiming.ClaimTiming | hub/util/gateway/state.go:236-253 | a claim fails up to a second before the instant the head waits for, succeeds from a second after, and in between exactly when the text test says so |
| GatewayTiming.QueueMovesOnTime | hub/util/gateway/state.go:236-253 | in every reachable state the head of a queue waits for some instant, and ClaimTiming holds for it |
| GatewayTiming.RetryParks | hub/util/gateway/functions.go:324-333 | an effective retry leaves its row pending, due after the backoff |
| GatewayTiming.RetryHoldsTheSession | hub/util/gateway/state.go:217-253 | over any stretch of a run in which all claims in the session come a second before a parked row is due, the row stays as it is and no later message of the session is touched; once it is due, a claim takes it |
| GatewayTiming.ClaimStartsLease | hub/util/gateway/state.go:236-253 | a claim that takes a row starts a lease from the claim's clock, under the next attempt number |
| GatewayTiming.LeaseHoldsTheMessage | hub/util/gateway/state.go:236-332 | over any stretch of a run in which all claims in the session come a second before the lease, counted from the last renewal, runs out, nobody else takes the message: it stays in process under its attempt until it is put back or finished under that attempt |
| GatewayTiming.HeartbeatsKeepTheMessage | hub/util/gateway/functions.go:263-296 | the same for any number of heartbeats, if no claim in the session comes later than one heartbeat interval after the last one |
| GatewayTiming.ThreeBeatsALease | hub/util/gateway/functions.go:817-829 | heartbeats come every third of the lease, held between five and thirty seconds |
| GatewayTiming.IntervalCoversTheLease | hub/util/gateway/functions.go:817-829 | for any lease: after a renewal a claim takes the message exactly when the text test says the lease has run out; up to the next beat never with six seconds or more, at the next beat always with four or less |
| GatewayMessages.MessagesStayAsReceived | hub/util/gateway/state.go:165-312 | from its receipt on, in every later state of any run, a message keeps session, trimmed channel, text, input and time of receipt, and reading its row gives exactly these |
| GatewayMessages.HandlersGetWhatWasReceived | hub/util/gateway/functions.go:254-312 | whatever any worker handles in any state of any run is a message exactly as some step received it |
| GatewayMessages.EveryReplyAnswersItsMessage | hub/util/gateway/functions.go:299-350 | every reply in every reachable state: its message was received, later handed to a worker exactly so, and the handler's outcome then was the reply's text and status done, or an error with no retry left, which the reply tells together with the message's id and the row keeps |
| GatewayMessages.FailureIsTold | hub/util/gateway/functions.go:335-341 | the text of a failure names the message in decimal digits and gives the cause |
| GatewayPump.CompleteOne | internal/reliable/job_completer.go:41-128 | one round: claim, handle, then complete, retry with backoff while attempts remain, or fail; nothing after a lost lease |
| GatewayPump.CompleteOneIsFourSteps | internal/reliable/job_completer.go:69-124 | a round without interference is the protocol's claim, read, handle and write steps |
| GatewayPump.RoundAnswersTheHead | internal/reliable/job_completer.go:84-125 | for every outcome of the handler, what a round does to the head, to the reply table and to all other rows |
| GatewayPump.RoundRecordsTheOutcome | internal/reliable/job_completer.go:84-125 | after a round the row holds the time it was finished, the reason of a failure, and the next due time, one second after a first failed attempt and two after a second; the sender of a failed message is told the id and the reason on the message's channel |
| GatewayPump.RunPump | hub/util/gateway/functions.go:199-220 | the clamped limit and the loop: rounds until nothing is claimed or the limit is reached, the number of them and the last message claimed |
| GatewayPump.RoundMovesTheQueue | internal/reliable/job_completer.go:84-125 | a round that finishes the head answers it and takes it off the queue; a retry or a lost lease leaves queue and replies alone |
| GatewayPump.PumpAnswersInOrder | hub/util/gateway/functions.go:206-220 | whatever its handler does, a pump answers the first waiting messages, one reply each, in order, and leaves the others waiting; if the handler always succeeds that is one per round, and if they can be claimed as many as the budget allows |
| GatewayPump.PumpTakesThreeRoundsAMessage | internal/reliable/job_completer.go:84-114 | without lost leases a pump takes at most three rounds for each message it answers, and two for one still being retried |
| GatewayPump.PumpEmptiesTheQueue | hub/util/gateway/functions.go:182-220 | if all waiting messages were due a second before each claim, a pump answers in order the lesser of the requested limit, held between 1 and 200, and their number |
| GatewayPump.LastInboundId | hub/util/gateway/functions.go:206-220 | the id a pump reports last is that of the last message it answered, or of the one it was still trying; 0 exactly if it processed none |
| GatewayPump.NewMessageWaitsLast | hub/util/gateway/state.go:165-185 | a received message joins its session's queue at the end, and if nothing else waits it can be claimed from its receipt on, give or take a second |
| SlackBridge.Bridge.SendWithRetry | internal/slack/service.go:269-290 | a post goes through at the first try, or at the second, which is made only after a rate limit and an uninterrupted wait |
| SlackBridge.Bridge.DeliverBatch | internal/slack/service.go:225-237 | after any batch the posts are exactly the Slack-addressed rows up to lastID, and lastID is the last polled row before the first failed send; if all sends work, the batch handles as many of the rows that are left as its limit of 1 to 500 allows, 100 without a limit |
| SlackBridge.GoodBatchUsesUpThePoll | internal/slack/service.go:225-237 | if every send works the poll is used up, and unless it was full nothing of the session is left |
| SlackBridge.Bridge.RunOutboxLoop | internal/slack/service.go:209-240 | over any polls and failures: the successful posts are exactly the session's Slack-addressed rows above the start and up to lastID, each once, in order; once polls and sends work, after at most one tick for each row that was left nothing is left and all have been posted |
| SlackBridge.Bridge.RunBesideGateway | internal/slack/service.go:209-240 | a bridge that polls any states of any run of the gateway: its own posts answer different messages of its session, in order of arrival, each on its message's channel; and all replies are posted once polls and sends work |
| SlackBridge.Dedupe.IsDuplicate | internal/slack/service.go:185-207 | the answer and the keys remembered afterwards, exactly; a duplicate was accepted less than a day before this call, and conversely a key accepted less than a day before this call and before the latest clock read so far is one, so that the two agree for calls in order |
| TaskTree.TaskManager.NewRecord | runtime/task_manager.go:724-759 | a task is created under its parent exactly when the parent is in the table, not cancelled and not complete; otherwise the first of these that fails is the error |
| TaskTree.TaskManager.Cancel | runtime/task_manager.go:364-420 | requests cancellation of exactly the open records under the task, collects their installed cancel functions once each, and enqueues each record once |
| TaskTree.TaskManager.EnqueueChildren | runtime/task_manager.go:406-413 | appends exactly the children in the table, each once |
| TaskTree.CancelReachesExactly | runtime/task_manager.go:393-413 | a record is under a task exactly when it descends from it through records none of which has left the table |
| TaskProtocol.GrandchildEscapes | runtime/task_manager.go:393-413 | a reachable state in which cancelling a task leaves the running child of its completed child alone |
| TaskProtocol.NoLostCancellation | runtime/task_manager.go:442-448 | a running function whose cancellation was requested has its context cancelled, or a Cancel call holds its cancel function |
| TaskProtocol.CancelledSubtreeStaysShut | runtime/task_manager.go:397-413 | what was under a task when it was cancelled, by a caller or by its own ending as cancelled, stays cancelled or complete, and nothing new is ever spawned under it |
| TaskProtocol.WaitReturnsFinalStatus | runtime/task_manager.go:319-322 | a waiter released by the done channel reads a final status |
| TaskProtocol.ResultsStay | runtime/task_manager.go:472-515 | parents, final results, completion, cancel requests, removals and final log rows all stay once they are there |
| TaskProtocol.FinalStatusIsStable | runtime/task_manager.go:309-354 | once a Wait or Get has returned a final status, every later one returns the same status and error, across removal of the record |
| TaskOutcomes.FinalStatusTellsTheResult | runtime/task_manager.go:472-489 | every final status that any Wait or Get returns for a task is what its function ended with: done without an error, cancelled with "task canceled", or failed with the function's error |
| TaskOutcomes.FinalStatusHasAnEnd | runtime/task_manager.go:472-489 | a record has a final status only after its function has ended |
| TaskOutcomes.CancelledTaskCancelsItsSubtree | runtime/task_manager.go:477-494 | after a function ended as cancelled, everything under its task at the step after is asked to stop or complete, in every state in which the goroutine has gone on |
| TaskOutcomes.NoCancellationWithoutCause | runtime/task_manager.go:397-448 | a task is asked to stop only by a Cancel of itself or of a task it was under, and only then is its context cancelled or its cancel function taken |
| ConversationStore.HashNamesNode | conversation/db/hash.go:16-18 | two node hashes agree exactly when parent and message do, and none is the root's |
| ConversationStore.DB.LoadChainRows | conversation/db/node.go:20-78 | the query walks from the node to the root and lists the rows from the top, or reports that the node is missing |
| ConversationStore.DB.Append | conversation/db/node.go:10-18 | appends under a stored parent, the empty hash standing for the root |
| ConversationStore.DB.Insert | conversation/db/node.go:92-109 | stores the node unless its hash is stored already |
| ConversationStore.DB.CreateRefRow | conversation/db/ref.go:58-78 | creates an unleased ref on a stored node, or says why not |
| ConversationStore.DB.Advance | conversation/db/ref.go:80-115 | moves the head to a new child if it is the expected one and nobody else holds the ref; otherwise nothing changes |
| ConversationStore.DB.Acquire | conversation/db/lease.go:29-60 | takes the lease unless somebody else holds one that has not run out |
| ConversationStore.DB.Renew | conversation/db/lease.go:62-89 | extends the lease of the recorded holder only |
| ConversationStore.DB.Release | conversation/db/lease.go:91-105 | clears holder and expiry together, for the recorded holder only |
| ConversationStore.ChainUnrolls | conversation/db/node.go:24-37 | a chain is its node after the chain of that node's parent |
| ConversationStore.ChainsStartAtRoot | conversation/db/node.go:24-37 | every stored node's chain begins at the root and ends at the node |
| ConversationStore.LoadedChainsAreRooted | conversation/db/node.go:72-76 | a hash can be loaded exactly when it is stored |
| ConversationStore.InsertKeepsTree | conversation/db/node.go:92-109 | inserting keeps every parent before its children, and the new chain is the parent's chain and the message |
| ConversationStore.ChainsNeverChange | conversation/db/node.go:101-104 | a stored chain is the same in every later table |
| ConversationStore.AppendThenLoad | conversation/db/node.go:10-78 | loading after an append gives the old chain and the message exactly when the message is not marked root; a repeated append changes nothing and returns the same hash |
| ConversationProtocol.LeasedRef.Append | conversation/db/leased_ref.go:47-62 | an open handle advances the ref from its cached head and caches the new one on success |
| ConversationProtocol.LeasedRef.Renew | conversation/db/leased_ref.go:64-78 | renews for an open handle and moves its deadline on success |
| ConversationProtocol.LeasedRef.Close | conversation/db/leased_ref.go:80-95 | releases once; later calls do nothing |
| ConversationProtocol.LeasedRef.LoadChainRows | conversation/db/leased_ref.go:40-45 | loads the chain of the cached head |
| ConversationProtocol.LeaseRef | conversation/db/lease.go:10-27 | a handle on the ref's head exactly when the lease was acquired |
| ConversationProtocol.HistoryOnlyGrows | conversation/db/ref.go:80-115 | every ref's earlier chain is a prefix of all its later chains, whoever appends, with stale handles and expired leases |
| ConversationProtocol.AppendedMessagesStay | conversation/db/ref.go:80-115 | a message whose append reported success is in its ref's chain in every later state, at the same place |
| ConversationProtocol.SuccessesAreRemembered | conversation/db/leased_ref.go:47-62 | the record of successful appends that AppendedMessagesStay speaks about never loses an entry |
| ConversationProtocol.HolderAndExpiryTogether | conversation/db/lease.go:48-100 | in every reachable state a ref has a holder exactly when it has an expiry |
| ConversationProtocol.LeaseExcludesOthers | conversation/db/lease.go:45-47 | over any stretch of a run in which the holder does not give its lease back and the others act before it runs out: the holder keeps it, nobody else changes the ref, and its history grows by exactly the holder's own messages, in order |
| ConversationProtocol.HandleSeesOnlyItsAppends | conversation/db/leased_ref.go:40-62 | in every run, what a handle loads changes only through its own successful appends, and then by exactly the message; this is what the agent loop's chain rests on |
| ConversationProtocol.AppendSucceedsExactly | conversation/db/ref.go:89-98 | when an append succeeds, and that it then adds exactly the message to the ref's chain; otherwise nothing changes |
| ConversationProtocol.ExpiredHandleAppends | conversation/db/ref.go:93-98 | a reachable state in which a handle appends although its lease has run out |
| ConversationLeases.LeaseLastsThirtySeconds | conversation/db/lease.go:29-89 | after an acquisition or a renewal all others are refused, for acquiring and for appending, for 30 s from then, and accepted from then on; the holder is always accepted, and only the holder can renew |
| ConversationLeases.ReleaseFreesTheRef | conversation/db/lease.go:91-105 | a lease that was given back keeps nobody away; giving back what one does not hold changes nothing |
| ConversationLeases.RenewedLeaseExcludesOthers | conversation/db/lease.go:45-89 | over any stretch of a run in which the others' clocks stay within 30 s of the holder's last acquisition or renewal and it does not let go: it keeps the lease, nobody else changes the ref, its history grows by exactly the holder's messages; the others get the ref 30 s after the last renewal and not before |
| ConversationLeases.CreatedRefShowsItsChain | conversation/db/ref.go:54-76 | a ref can be made under every free name of every conversation that can be loaded; it shows that conversation and has no lease, and nothing else changes |
| ConversationLeases.AppendedConversationReadsBack | conversation/db/node.go:10-78 | loading a conversation after any number of appends gives what was there before and then exactly the appended messages, in order |
| ConversationLeases.NewConversationReadsBack | conversation/db/node.go:10-78 | the empty hash names the empty conversation; any list of messages appended from there on is loaded back as it is |
| ConversationPairing.ToolMessagesAnswer | conversation/executor.go:243-291 | in every interleaving of any number of executors on shared refs, every tool message in a ref's history answers the message directly before it, if each is appended through the handle whose last append it answers |
| Executor.Executor.RunTools | conversation/executor.go:254-284 | one result per call, in order: real results up to the first interrupt seen, interrupted results from there on |
| Executor.FillInterrupted | conversation/executor.go:367-371 | marks exactly the calls from the given one on |
| Executor.Executor.RunTurn | conversation/executor.go:214-294 | what one turn appends and requests, with whose results, exactly with which status it ends or that the loop goes on, and exactly when it leaves its stored reply unanswered; the status is interrupted exactly when the last check saw the interrupt and the last append worked, or the model call was cancelled |
| Executor.Executor.RunLoop | conversation/executor.go:212-297 | the loop appends 2*Turns or 2*Turns-1 messages, Turns at most the limit, in rounds of a reply and the results of its calls; the k-th request is the chain after k rounds; the last reply is left unanswered exactly in the turn that OpenTurn names; and the status says exactly what the last check, the last append and the last model call came to |
| Executor.Executor.Open | conversation/executor.go:114-210 | the system prompt on a chain that is empty or cannot be loaded, then the user's message, cut short by the first append that fails |
| Executor.Executor.Run | conversation/executor.go:96-133 | a run only extends the chain, by its opening and rounds, and leaves a call unanswered exactly when UnansweredTurn names a turn, in that turn; its status is exactly StatusOf and says what its last check saw; the ref is closed afterwards if that works |
| Executor.StatusMeans | conversation/executor.go:230-296 | a run that leaves a reply unanswered does not report success, and one that reports an interruption has one, or a cancelled model call |
| Executor.RunKeepsPairing | conversation/executor.go:243-291 | a run keeps a paired chain paired exactly when UnansweredTurn names no turn, and in any case up to its very last message |
| Executor.SessionPairedExactly | conversation/executor.go:237-294 | over any number of runs a paired chain stays paired exactly when no run had its interrupt seen between storing a reply and its first tool, or failed to store its tool results |
| Executor.UnansweredOnlyAtThatMoment | conversation/executor.go:247-249 | when every append works, a reply is left unanswered exactly when the interrupt is first seen by the check right after a reply with calls was stored |
| Executor.LeaveCallUnanswered | conversation/executor.go:247-249 | the loop itself, interrupted at that check, leaves a conversation that ends on an unanswered call |
| RunOutcomes.StatusExactly | conversation/executor.go:212-297 | when nothing fails: with a reply that asks for no tools within the turn limit a run is interrupted exactly when its interrupt comes no later than the check after that reply, and completed otherwise; without one it is interrupted exactly when the interrupt comes no later than the check after the last turn, and ends with an error otherwise |
| RunOutcomes.ResultsTellTheOutcome | conversation/executor.go:254-284 | what the model is told about each call: the output, or the error marked as one, or that the tool is unknown, or that it was interrupted |
| RunOutcomes.PromptFirstExactly | conversation/executor.go:198-210 | over any number of runs from an empty chain on, the system prompt stands at the start and nowhere else exactly when no run appended it again because it could not load its chain |
| RunOutcomes.UserMessageComesNext | conversation/executor.go:114-210 | a run's user message comes right after the conversation it found, and after the system prompt if that was stored, and its first request ends with it |
| RunOutcomes.RepeatPrompt | conversation/executor.go:198-210 | two runs, the second of which cannot load its chain: the conversation holds the system prompt twice |
| TailBuffer.TailBuffer.Write | internal/agentloop/tools/bash.go:112-132 | after any write the buffer holds the last bytes of everything written, through the in-place shift |
| TailBuffer.TailBuffer.DropFront | internal/agentloop/tools/bash.go:126-129 | the overlapping copy keeps the bytes and their order |
| TailBuffer.TailBuffer.Truncated | internal/agentloop/tools/bash.go:146-150 | true exactly when bytes were lost |
| TailBuffer.Capture | internal/agentloop/tools/bash.go:62-67 | for any sequence of writes: the last limit bytes of their concatenation, its length, and whether bytes were lost |
| Truncate.TruncateHead | internal/agentloop/tools/truncate.go:22-64 | the greatest number of first lines within both limits, the reason, and the totals |
| Truncate.TruncateTail | internal/agentloop/tools/truncate.go:66-116 | the greatest number of last lines within both limits; if not even the last fits, its longest valid suffix within the limit |
| Truncate.CollectTail | internal/agentloop/tools/truncate.go:81-103 | takes lines from the end while they fit, the last one first, and says which limit stopped it |
| Truncate.Reverse | internal/agentloop/tools/truncate.go:105-107 | the in-place swap reverses the lines |
| Truncate.TrimToLastBytes | internal/agentloop/tools/truncate.go:118-131 | the longest suffix within the limit that is valid UTF-8 |
| Truncate.TrimLosesAtMostThree | internal/agentloop/tools/truncate.go:123-126 | of valid UTF-8 (section 3 of RFC 3629) at most three bytes below the limit are lost |
| Truncate.HeadIsAPrefix | internal/agentloop/tools/truncate.go:57-63 | the result is a prefix within the byte limit, and the whole text exactly when it is not marked truncated |
| Truncate.TailIsASuffix | internal/agentloop/tools/truncate.go:109-115 | the result is a suffix within the byte limit |
| Truncate.CutsStayValid | internal/agentloop/tools/truncate.go:22-131 | valid UTF-8 stays valid, whichever end is cut |
| Truncate.TailFillsTheLimit | internal/agentloop/tools/truncate.go:94-98 | when the last line alone is too long, what is shown of valid text fills the limit but for three bytes |
| Truncate.SuffixShownAlike | internal/agentloop/tools/truncate.go:66-116 | a suffix of a text is cut to the same text, with the same flag and reason, exactly when it is the whole text or is itself beyond a limit |
| BashOutput.ShowOutput | internal/agentloop/tools/bash.go:62-79 | from any writes: the last two MiB of their concatenation, trimmed, "(no output)" if nothing is left, cut from the end; the total size; and whether the capture limit was reached |
| BashOutput.TrimSpaceTrims | internal/agentloop/tools/bash.go:67 | trimming takes away white space characters at both ends and nothing else, and leaves none there |
| BashOutput.OutputIsTrimmed | internal/agentloop/tools/bash.go:67-73 | what there is to show is never empty and neither starts nor ends with white space; it is "(no output)" instead exactly when all captured text is white space |
| BashOutput.TrimLeftOfCut | internal/agentloop/tools/bash.go:67 | trimming a text that was cut at the front gives a suffix of the trimmed text, unless the cut is inside a white space character, whose rest then stops the trimming at once |
| BashOutput.TrimmedCapture | internal/agentloop/tools/bash.go:62-67 | of the trimmed capture and the trimmed output one is a suffix of the other, or one is the one or two stray bytes of a white space character |
| BashOutput.CaptureShownAlike | internal/agentloop/tools/bash.go:62-73 | for every output and capture limit: the tool shows the same as without the limit exactly when both trimmed texts are the same, or both are too long to be shown whole |
| BashOutput.LongGapLooksShort | internal/agentloop/tools/bash.go:62-73 | "a", two MiB of spaces and "xyz" is shown as "xyz", uncut |
| BashOutput.CutSpaceLooksLong | internal/agentloop/tools/bash.go:62-73 | a wide space, spaces and "xyz" is shown as a cut text when the capture starts inside the wide space, and as "xyz" without the limit |
| ReadTool.ReadLines | internal/agentloop/tools/read.go:130-158 | reading to each newline, with the extra empty line at the end, gives the lines of the file without carriage returns |
| ReadTool.Builder.AppendLine | internal/agentloop/tools/read.go:94-128 | the builder holds the greatest run of requested lines within the limits, and knows when one was left out |
| ReadTool.Execute | internal/agentloop/tools/read.go:64-181 | the page for an offset and a limit: which lines, their text, and the suggested continuation, or the past-the-end error |
| ReadTool.TextTakenForBinary | internal/agentloop/tools/read.go:183-197 | valid text is taken for binary exactly when its first 8192 bytes contain a NUL byte or end inside a character |
| ReadTool.SplitLetterLooksBinary | internal/agentloop/tools/read.go:64-71 | 8191 letters and one of two bytes: valid text without NUL bytes that is refused |
| ReadTool.PagesCoverTheFile | internal/agentloop/tools/read.go:160-175 | following the offsets ends, shows every line once and in order except lines alone too long, and ends in the past-the-end error exactly when the last line is one |
| ReadTool.OffsetsIncrease | internal/agentloop/tools/read.go:165-174 | each suggested offset is larger than the one before, and the next page starts there; the numbers of lines and of remaining lines in the notes are right |
| ReadTool.PagesJoinToTheFile | internal/agentloop/tools/read.go:160-175 | a file without a line that is too long can be put together from its pages, for any limits |
| ReadTool.LinesJoinToTheFile | internal/agentloop/tools/read.go:130-158 | joining the lines gives the file without the carriage returns right before a newline or at the very end |
| ReadTool.FileReadsBack | internal/agentloop/tools/read.go:64-181 | following the offsets from the first line gives the whole file, for any limits: exactly if it has no carriage returns, otherwise without those at line ends, if no line alone is too long |
| TraceFilter.FindTaskRoot | cmd/zoa/trace.go:280-298 | climbing ends for any parent links, at the root if there is one, and at the task itself on a cycle; task 0 is its own root |
| TraceFilter.DropShortHiddenRoots | cmd/zoa/trace.go:193-261 | what is left is exactly the events not under a short hidden root, in order; the number is that of those roots |
| TraceFilter.DroppedWithItsParent | cmd/zoa/trace.go:236-242 | a task with a parent is dropped exactly when its parent is; a root exactly when it is hidden, ended and short; task 0 never along with a parent |
| TraceFilter.RootDroppedExactly | cmd/zoa/trace.go:197-234 | a root task is dropped exactly when it is hidden, has an end, and took less than the threshold by at least a nanosecond; without an end it is kept |
| TraceFilter.RegionEndsWithItsStart | cmd/zoa/trace.go:244-258 | the start and the end of a region are dropped together |

## Left out

- SQLite: each transaction is one atomic step on sequences and maps; schema, migration, legacy rows and database errors are not modelled. A failed transaction changes nothing, which is a step that was not taken.
- Handling a message: the model's reply, retryable or not, is arbitrary; the substring test for retryable errors (hub/util/gateway/functions.go:831-867) and the chat itself are not modelled.
- Writing a reply without a message (hub/util/gateway/state.go:486-510) is outside the pumps and not a step of the protocol.
- Heartbeats and tickers are optional steps at arbitrary times; there is no claim that a pump is scheduled at all.
- Clock readings are numbers of nanoseconds; the gateway's are printed and compared as text, the conversation store's are compared as numbers because its text is parsed back before comparison. A transaction that reads the clock twice has one reading here.
- SHA-256 (section 6.2 of FIPS 180-4) and JSON encoding are parameters of the store that are taken not to collide; that a stored message can be decoded again is taken for granted.
- Ref names and runner ids are taken as already trimmed, as all callers pass them.
- GatewayPump.RunPump: the queue length and the last outbox id that are reported at the end are not stated, because they are only displayed.
- TaskProtocol.FinalStatusIsStable: log writes are taken to succeed, and outputs, times and conversations of a snapshot are not modelled.
- TaskTree.TaskManager.Cancel: the tests for a visited or missing queue entry are left out of the loop, because the proof shows that neither can be true.
- Pumps registered with the task manager, task timeouts, Close and the registry are not modelled.
- Executor.Executor.Run: any failed append, load or release is allowed for, but not why it failed; Stop acts on the loop only through the interrupt checks, a cancelled context and failing tools, all of which are arbitrary here; its waiting is not modelled. The lease renewal beside the loop is the renew step of ConversationProtocol.
- ConversationPairing.ToolMessagesAnswer: messages of the store have a role and a body only; that an executor keeps the discipline is what Executor.Executor.RunTurn shows of one loop, whose tool message follows its own reply.
- SlackBridge.Bridge.RunOutboxLoop: parsing a channel address is a parameter that says whether a row is for Slack; waiting times are left out.
- BashOutput.ShowOutput: running the command, its timeout and the wording of the notes are not modelled.
- ReadTool.Execute: the wording of notes, path resolution and read errors are not modelled; the sample is taken to be read in full.
- TraceFilter.DropShortHiddenRoots: the threshold is a real number, without the rounding of floating point.
- 64-bit wrap-around of ids, counters, offsets and times is not modelled.
- HTTP, websockets, the TUI, the web viewer, systemd, dotenv, keyword search, input coercion and the capped grep buffer are input and output or would only add easy members.
