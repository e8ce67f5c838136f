# Verification of the judge server's core

A Dafny model of an asynchronous judge server: clients submit programs over framed TCP
connections, a select thread answers them, worker threads compile and run the submissions
case by case, and results go back to the connection they came from. `dafny verify
dfyconfig.toml` checks the whole project.

The model follows the code's own structure:

- **Reply protocol** (`ReplyProtocol` and the other `Reply*` modules, `ReplyConnections` among
  them for which connections are open). One select thread and
  any number of workers, one lock-protected call or system call per step, so that every
  interleaving the mutexes allow is a run. The objects the steps work on are `Buffer`,
  `ConnectionSlot`, `ConnectionRegistry` and `AckBarrier`, each a class that updates its
  fields as the code does and whose methods are tied to the value functions the steps use.
- **Result store, service, queue, workers** (`ResultCleanup`, `ResultStores`,
  `ResultStoreRuns`, `JudgeTraces`, `SubmissionServices`, `SubmissionQueues`,
  `JudgeSystems`, `JudgeTheorems`, `JudgeDrain`). The store is a class with a journal of its
  calls; `processSubmission` runs on it while arbitrary calls of other threads come in between,
  and against a runner that may throw at any stage.
- **The whole server** (`JudgeServers`, `JudgeServerTies`, `JudgeServerTheorems`). The two step
  systems joined: a worker's pop, posts and retirement are steps of both, and what it asks the
  store before and after judging decides what it posts.
- **Output comparison** (`InStreams`, `Trimming`, `Fcmp2s`, `OutputCompare`, `ComparatorLimits`,
  `Int64Token`). testlib's input stream, the line checker, the built-in comparison that stands
  in for it, and the int64 reader.
- **Judging one case** (`ParentMonitors`, `Sjudgers`, `CaseRunners`, `VerdictReducers`). The
  poll loop over an arbitrary child and clock, the classification, the fold of verdicts.

Assumptions stated in the model: an accepted file descriptor is positive and not open already,
session ids stay below 2^64, there are at most 2^31 - 1 slots, a query finds only submissions
that were created, and submission ids are unbounded integers.

## What holds only under a condition

The code is modelled as it is. Each statement below is false of it in general; the model has
a concrete counterexample or a whole failing family, and the exact condition under which the
statement holds.

- *Ack first.* The barrier is released before the ack is queued, so a worker may append a
  result in between: `ReplyWitnesses.AckCanBeOvertaken`, exact condition
  `ReplyAckOrder.AckFirstExactly`, full promise with the two as one step
  `ReplyAckOrder.AckFirstWhenAtomic`.
- *Unsent bytes are watched for writing.* `set_readable` after a drained write may overwrite
  the WRITABLE a worker has just set: `ReplyWitnesses.WakeupCanBeLost`,
  `ReplySelectSets.ReadyExactly`, `ReplySelectSets.SetsExactly`,
  `ReplySelectSets.SetsRightWhenAtomic`.
- *`graceful_shutdown` drains the queue.* It sets the stopped flag first, so its call of
  `stop` returns at once and the queue is never closed: `JudgeTheorems.ClosingExactly`,
  `JudgeTheorems.WorkersLeaveOnlyAfterStop`.
- *A result that has just finished can be queried.* It is gone at once when retention is zero
  or the other unfinished records fill the store: `ResultStoreRuns.FreshResultSurvives`.
- *The summary does not depend on the order of the cases.* RE, MLE and OLE share a rank, as
  do WA and PE: `VerdictReducers.OrderIrrelevantExactly`, `VerdictReducers.OrderCanDecide`.
- *Both comparisons agree.* On plain outputs, those without lone CR, byte 255 and tabs at the end
  of a line, they agree if and only if some plain output passes both, which means that the
  expected file is plain itself, or none passes either. None passes the checker when it meets a
  lone CR or compares a line that ends in a tab; none passes the built-in comparison when a
  trimmed line of the expected file holds a CR or a byte 255:
  `ComparatorLimits.ComparatorsAgreeExactly`. Tabs inside a line do no harm, and with tabs
  anywhere the checker is the stricter one: `OutputCompare.CheckerAcceptsLess`.
- *A request that has arrived is answered.* `read_message` takes one frame per read, so a second
  one in the same read waits for further bytes: `Framing.SecondFrameWaits`,
  `Framing.NothingWaitsExactly`.
- *A client is told that judging has started.* The worker asks while the record is still QUEUED
  and skips the message every time: `JudgeServerTheorems.StartNeverTells`.
- *The checker ends.* It does not when the expected file has a lone CR up to which the output
  agrees and after which the output is blank: `Fcmp2s.HaltsExactly`,
  `Fcmp2s.CheckerCanRunForever`.
- *Any limit from 1 to 2^31 - 1 ends the wait.* The limit must lie at least one step of the clock
  below 2^31 - 1, because elapsed time wraps: `ParentMonitors.MonitorEndsExactly`; at 2^31 - 1 the
  comparison can never succeed: `ParentMonitors.TimeoutPossibleExactly`,
  `ParentMonitors.UnlimitedEndsWithChild`.
- *A setup error is told from a user program's exit.* A program that itself exits with one of
  the setup codes is reported as SYSTEM_ERROR: `Sjudgers.RunSjudger` (`OwnFault`).

## Model

| member | source | states |
|---|---|---|
| ReplyChannels.ParseText | src/network/ReplyChannel.cpp:5-30 | parsing what `to_string` wrote gives the channel back, exactly for the slots and sessions the parser's integer types hold |
| ReplyChannels.TextInjective | src/network/ReplyChannel.cpp:5-7 | different channels never have the same text, so a text names one session of one slot |
| ReplyChannels.CanonicalExactly | src/network/ReplyChannel.cpp:9-30 | an accepted text is the one `to_string` writes for its channel if and only if both halves are plain numerals, without blanks, sign or leading zeros |
| ReplyChannels.ParseIsLax | src/network/ReplyChannel.cpp:9-30 | the parser also accepts a minus sign before any session but zero and wraps it around, so a channel has more than one text |
| Framing.HostOfNetwork | src/network/ConnectionSlot.cpp:173-178 | the four-byte network-order length prefix reads back as the length, for every length below 2^32 |
| Framing.NetworkOfHost | src/network/ConnectionSlot.cpp:69-117 | and every four bytes are the prefix of the length they read as |
| Framing.NetworkOrderIsOrder | src/network/ConnectionSlot.cpp:173-178 | the most significant byte is sent first: for lengths below 2^32 one is smaller exactly when its bytes precede the other's lexicographically |
| Framing.InboundFraming | src/network/ConnectionSlot.cpp:69-117 | however a framed stream is cut into reads, the messages returned are a prefix of the bodies, buffered and unread bytes frame exactly the rest, and there is at most one message per read |
| Framing.ReadReturnsNextBody | src/network/ConnectionSlot.cpp:69-117 | a read leaving a whole frame at the head returns exactly the next body, any other read returns nothing and keeps all bytes |
| Framing.LeftBehindExactly | src/network/ConnectionSlot.cpp:69-117 | a read leaves a whole frame in the buffer if and only if buffer and chunk together hold at least two |
| Framing.NothingWaitsExactly | src/network/ConnectionSlot.cpp:69-117 | over any reads of a fresh connection no whole request is ever left waiting if and only if no read brings the end of more than one |
| Framing.SecondFrameWaits | src/network/ConnectionSlot.cpp:83-117 | two requests arriving in one read leave the second whole in the buffer |
| Framing.DrainPrefix | src/network/ConnectionSlot.cpp:173-178 | a client reading any front of a framed stream decodes exactly the first bodies |
| Framing.DrainAll | src/network/ConnectionSlot.cpp:173-178 | framing and decoding a list of bodies is a round trip |
| Buffers.Buffer.constructor | src/network/Buffer.h:17-27 | a new buffer is empty with both indices at the prepend space |
| Buffers.Buffer.Retrieve | src/network/Buffer.h:41-53 | drops the first bytes of the content, all of them when asked for more, and keeps the indices in order |
| Buffers.Buffer.RetrieveAsString | src/network/Buffer.h:59-63 | returns the front of the content and removes it |
| Buffers.Buffer.Compact | src/network/Buffer.h:99-106 | moving the readable bytes to the front keeps them and all the free room |
| Buffers.Buffer.MakeSpace | src/network/Buffer.h:92-108 | keeps the content and leaves the room asked for, compacting only when the reader has moved |
| Buffers.Buffer.EnsureWritableBytes | src/network/Buffer.h:65-70 | afterwards the bytes asked for fit, and the content is as before |
| Buffers.Buffer.Append | src/network/Buffer.h:72-76 | the content becomes the old content followed by the data |
| Buffers.Buffer.ReadFd | src/network/Buffer.cpp:12-37 | both branches, in place and spilled into the extra segment, append exactly the bytes read; an error appends nothing |
| Slots.QueueAppends | src/network/ConnectionSlot.cpp:173-178 | queueing a response appends its frame to the unsent bytes, whether or not some were sent already |
| Slots.ConsumeDrops | src/network/ConnectionSlot.cpp:162-171 | consuming removes what was sent from the front of the unsent bytes |
| Slots.ConnectionSlot.Init | src/network/ConnectionSlot.cpp:21-29 | a slot starts a session empty, with nothing left of the last one |
| Slots.ConnectionSlot.Clear | src/network/ConnectionSlot.cpp:31-42 | clearing gives the empty slot and closes the descriptor it held |
| Slots.ConnectionSlot.ReadMessage | src/network/ConnectionSlot.cpp:69-117 | a read appends its bytes to the input and takes the frame at the head if it is whole, else takes nothing |
| Slots.ConnectionSlot.SetPendingResponseIfSession | src/network/ConnectionSlot.cpp:140-150 | a response is queued only for the session it is meant for; for any other the slot is unchanged |
| Slots.ConnectionSlot.CopyPendingResponse | src/network/ConnectionSlot.cpp:157-160 | the copy is exactly the unsent bytes |
| Slots.ConnectionSlot.ConsumePendingResponse | src/network/ConnectionSlot.cpp:162-171 | advances the offset, and reports and resets a fully sent response |
| AckBarriers.DeferAppends | src/network/AckBarrier.cpp:25-34 | a message for a waiting channel joins the end of its list and no other list changes |
| AckBarriers.HoldAndRelease | src/network/AckBarrier.cpp:5-34 | marking, deferring any messages and releasing gives them back in order and leaves the barrier as it was |
| AckBarriers.AckBarrier.MarkWaiting | src/network/AckBarrier.cpp:5-8 | the channel waits, nothing else changes |
| AckBarriers.AckBarrier.ReleaseChannel | src/network/AckBarrier.cpp:10-23 | returns the channel's deferred messages in order and forgets the channel |
| AckBarriers.AckBarrier.TryDefer | src/network/AckBarrier.cpp:25-34 | keeps a message exactly when its channel is waiting |
| SubmitHandlers.SubmitEnsuringAckFirst | src/network/SubmissionRequestHandler.cpp:18-48 | whatever was posted to the channel during the submit comes back in order behind the response, which is an ack exactly for a positive id |
| Registries.AcquireKeepsPartition | src/network/ConnectionRegistry.cpp:27-36 | free and live slots still partition the ids after an acquisition exactly when the descriptor is not the cleared value |
| Registries.ReleaseKeepsPartition | src/network/ConnectionRegistry.cpp:40-47 | releasing any slot keeps the partition, and a free slot is not listed twice |
| Registries.AcquireThenRelease | src/network/ConnectionRegistry.cpp:27-47 | releasing an acquired slot restores every slot and frees the same ids |
| Registries.ConnectionRegistry.PopulateSocketSets | src/network/ConnectionRegistry.cpp:53-72 | the read and write sets hold exactly the descriptors of live slots with that status, and the maximum is right |
| ReplyInvariant.InvStep | src/network/ClientSockets.cpp:112-319 | every step of every thread keeps the invariant: live slots belong to one connection each, sessions are fresh, barrier entries belong to the running submit, tasks and messages carry their origin's channel |
| ReplyInvariant.InvRun | src/network/ClientSockets.cpp:112-319 | the invariant holds after every run |
| ReplyConnections.ClosingFrees | src/network/ClientSockets.cpp:147-199 | a hangup or a failed send closes the connection of its slot and no other, clears the slot and appends it to the free queue |
| ReplyConnections.AcceptOpens | src/network/ClientSockets.cpp:112-123 | an accept opens a connection with a new session on the first free slot, or is refused and changes no slot |
| ReplyConnections.OpenExactly | src/network/ClientSockets.cpp:112-199 | in every run a connection is open exactly when it was accepted and no hangup or failed send has hit it since |
| ReplyConnections.RefusedExactly | src/network/ClientSockets.cpp:112-123 | in every run a client is refused exactly when as many connections are open as there are slots |
| ReplyDelivery.NoStaleDelivery | src/network/ClientSockets.cpp:251-319 | in every run a worker's message is appended only to the connection its submission came from, never to a later tenant of the slot |
| ReplyDelivery.OutboundConservation | src/network/ClientSockets.cpp:168-199 | in every run the bytes sent in a session followed by its unsent bytes are the frames of all responses accepted for it, in order; on a closed one the sent bytes are the front of them |
| ReplyDelivery.ClientDecodes | src/network/ConnectionSlot.cpp:119-178 | a client decoding what was sent gets the first accepted responses and nothing else |
| ReplyDelivery.WriteHandlerSends | src/network/ClientSockets.cpp:168-199 | in any state an undisturbed write handler sends the next bytes of its connection's stream, up to all that is unsent, and only when it sends all is the stream out and the slot turned back to reading |
| ReplyAckOrder.AckFirstExactly | src/network/ClientSockets.cpp:228-244 | a run never puts anything about a submission before its ack if and only if no worker appends between the barrier release and the queueing of the ack |
| ReplyAckOrder.AckFirstWhenAtomic | src/network/SubmissionRequestHandler.cpp:18-48 | with release and ack-queueing as one step, ack-first holds in every interleaving |
| ReplyDeferral.DeferredExactlyOnceInOrder | src/network/ClientSockets.cpp:228-244 | in every run the messages a finished handler lists are on its connection, after its reply and in its order, no message is on any connection twice, and none is put aside between handlers |
| ReplyBooking.PostIsDeferred | src/network/AckBarrier.cpp:25-34 | a message posted to a waiting channel is put aside as the last of the running handler's list |
| ReplyBooking.DeferredIsAppended | src/network/SubmissionRequestHandler.cpp:18-48 | for every run and every continuation of it that ends between handlers: a message put aside while a submit is being answered is on that submit's connection, behind that submit's own ack or refusal, at its place in the handler's list, and nowhere else |
| ReplyPosts.EveryPostAccounted | src/network/ClientSockets.cpp:296-318 | in every run each message ever posted is with its worker, put aside while a submit is answered, on its own submission's connection and nowhere else, or its connection is closed |
| ReplySelectSets.ReadyExactly | src/network/ClientSockets.cpp:168-199 | at every point of a run no connection is idle outside its handler and unsent bytes are watched for writing, if and only if no `set_readable` overwrites a worker's WRITABLE |
| ReplySelectSets.ReadyWhenAtomic | src/network/ClientSockets.cpp:147-215 | with atomic write handlers that holds in every run |
| ReplySelectSets.SetsExactly | src/network/ConnectionRegistry.cpp:53-72 | in every run, each time the sets are rebuilt every live connection is in exactly one of them, and in the write set exactly when it has unsent bytes, if and only if no wakeup is lost |
| ReplySelectSets.SetsRightWhenAtomic | src/network/ClientSockets.cpp:147-215 | with atomic write handlers that holds in every run |
| ReplyWitnesses.AckCanBeOvertaken | src/network/ClientSockets.cpp:238-243 | a concrete run in which a result precedes its ack |
| ReplyWitnesses.WakeupCanBeLost | src/network/ClientSockets.cpp:193-199 | a concrete run that leaves a result queued on a connection that is only read from |
| Submissions.PathMovesForward | src/pipeline/ResultStore.cpp:26-57 | along accepted updates a submission never goes back a stage, and a terminal status is the last |
| Submissions.TransitionExactly | src/pipeline/ResultStore.cpp:26-57 | the transitions are exactly: stay, fail or take the next stage, from anywhere before the end, or finish from compiling |
| Submissions.NothingSkipped | src/pipeline/ResultStore.cpp:26-57 | on every path a submission compiles only after preparing, and runs or finishes only after compiling |
| ResultCleanup.CleanupKeeps | src/pipeline/ResultStore.cpp:76-120 | cleanup keeps all unfinished records and every kept snapshot and removes everything past retention by its finish time; within retention it removes only beyond the maximum, only records that finished no later than any finished one kept, and no more than the excess; it ends within the maximum or with no finished record left |
| ResultCleanup.CleanupIdempotent | src/pipeline/ResultStore.cpp:76-120 | a second cleanup at the same time changes nothing |
| ResultCleanup.CleanupDetermined | src/pipeline/ResultStore.cpp:101-119 | with distinct finish times the outcome is determined: the relation leaves only ties open |
| ResultStores.SortByFinish | src/pipeline/ResultStore.cpp:109-112 | the sort gives an ordered permutation of the entries |
| ResultStores.FinishedEntries | src/pipeline/ResultStore.cpp:101-107 | the entries are exactly the finished records with their finish times |
| ResultStores.ResultStore.CleanupExpired | src/pipeline/ResultStore.cpp:76-120 | the erase loops remove exactly what has been finished for the retention time or longer, and beyond the maximum only finished records finishing no later than any finished one kept, stopping as soon as the count fits |
| ResultStores.ResultStore.CreateSubmission | src/pipeline/ResultStore.cpp:123-136 | hands out the next id and stores under it, after a cleanup, a QUEUED record with a PENDING verdict, no message and no cases |
| ResultStores.ResultStore.UpdateResult | src/pipeline/ResultStore.cpp:139-163 | accepted exactly when the record survives the cleanup and may take the status; then it holds the snapshot under its own id, stamped if terminal, and a second cleanup follows |
| ResultStores.ResultStore.GetResult | src/pipeline/ResultStore.cpp:166-178 | answers from the record left after a cleanup and refreshes only its access time |
| ResultStores.StepKeepsInv | src/pipeline/ResultStore.cpp:123-178 | every call keeps: ids come from the counter, a record knows its id, finish times are set exactly for terminal records |
| ResultStores.InvRun | src/pipeline/ResultStore.cpp:123-178 | so they hold throughout every run |
| ResultStoreRuns.RecordStep | src/pipeline/ResultStore.cpp:123-178 | a call other than an accepted update leaves a record's snapshot alone and can remove it only when finished |
| ResultStoreRuns.UpdateAnswers | src/pipeline/ResultStore.cpp:139-151 | an update is refused exactly when no record may take the new status: cleanup never removes one that could |
| ResultStoreRuns.IdsNeverReused | src/pipeline/ResultStore.cpp:123-136 | in every run each creation gets an id larger than all before |
| ResultStoreRuns.RemovedNeverReturns | src/pipeline/ResultStore.cpp:76-178 | a record once removed never returns |
| ResultStoreRuns.TerminalFrozen | src/pipeline/ResultStore.cpp:139-163 | a terminal snapshot and its finish time never change |
| ResultStoreRuns.AcceptedFormAPath | src/pipeline/ResultStore.cpp:26-57 | in every run the statuses accepted for an id are a path in the transition graph from QUEUED, a stored record is the last accepted one, and a missing one ended terminal |
| ResultStoreRuns.QueryAnswersLatest | src/pipeline/ResultStore.cpp:166-178 | a query answers the last accepted snapshot, and nothing only for an unknown id or one whose last snapshot was terminal |
| ResultStoreRuns.FreshResultSurvives | src/pipeline/ResultStore.cpp:139-163 | an accepted terminal update is still stored afterwards if and only if retention is not zero and there is no maximum or fewer than that many other unfinished records |
| ResultStoreRuns.GoneAfterRetention | src/pipeline/ResultStore.cpp:76-94 | in every run a result is gone after any call that comes the retention time or more after its terminal write, whatever queries came between |
| ResultStoreRuns.StoredExactly | src/pipeline/ResultStore.cpp:76-94 | in every run without a maximum a terminal record is stored after a call if and only if no call since its terminal write, that one included, came the retention time or more after it |
| ResultStoreRuns.StoreBound | src/pipeline/ResultStore.cpp:96-136 | with a fixed positive maximum, at every point of every run holding any finished record means at most one record more than the maximum |
| JudgeTraces.TraceGood | src/pipeline/SubmissionService.cpp:219-366 | for every runner behaviour, exceptions included, the snapshots written follow the transition graph from QUEUED and end terminal |
| JudgeTraces.SnapshotsGrow | src/pipeline/SubmissionService.cpp:326-344 | the case lists of successive snapshots grow by one case and are prefixes of the final list |
| JudgeTraces.AcceptedExactlyWhen | src/pipeline/SubmissionService.cpp:227-348 | a submission ends FINISHED with AC exactly when it was prepared and compiled and its cases summarise to AC, or the runner reports a failed compilation under AC |
| JudgeTraces.FinalAnswer | src/pipeline/SubmissionService.cpp:219-366 | how a submission ends, from the runner's behaviour alone: FAILED exactly when a stage threw, the language is unsupported, preparing failed or there were no cases, and then a system error with that stage's message; a failed compilation ends FINISHED with the compiler's verdict and message, everything else FINISHED with all case results, their summary and the last message |
| JudgeTraces.SnapshotVerdicts | src/pipeline/SubmissionService.cpp:219-366 | no snapshot before the end carries a verdict and a FAILED one only SYSTEM_ERROR, so AC is in FINISHED ones only |
| JudgeTraces.RunningSnapshot | src/pipeline/SubmissionService.cpp:326-344 | the snapshot after a case holds exactly the results so far and that case's message |
| SubmissionServices.SubmissionService.Persist | src/pipeline/SubmissionService.cpp:67-84 | whatever other threads did in between, a write is refused exactly when the record could not take it before |
| SubmissionServices.SubmissionService.RunCases | src/pipeline/SubmissionService.cpp:326-348 | the loop writes one snapshot per case and the final one, and passes on the first exception with the record still open |
| SubmissionServices.SubmissionService.ProcessSubmission | src/pipeline/SubmissionService.cpp:219-366 | on a QUEUED record nobody else updates exactly the trace is accepted, nothing is refused and the record ends terminal, a FAILED one as a system error with the message of the stage that failed, under any interleaved calls of other threads; on one past PREPARING nothing is accepted, and an id that is not positive does nothing |
| SubmissionServices.AlwaysTerminal | src/pipeline/SubmissionService.cpp:354-365 | once the trace has been accepted the record holds its terminal last snapshot unless it was cleaned up |
| SubmissionQueues.SubmissionQueue.Push | src/dispatch/SubmissionQueue.cpp:11-20 | accepted exactly while open, at the end of the queue |
| SubmissionQueues.SubmissionQueue.Pop | src/dispatch/SubmissionQueue.cpp:23-34 | takes the head, and reports the end only when closed and empty |
| SubmissionQueues.SubmissionQueue.Shutdown | src/dispatch/SubmissionQueue.cpp:37-41 | closes the queue and keeps what waits in it |
| SubmissionQueues.SubmitAsync | src/pipeline/SubmissionService.cpp:188-208 | an open queue gets the task with the new id; a closed one leaves a QUEUED record behind and answers -1 |
| JudgeSystems.InvStep | src/dispatch/JudgeWorkerPool.cpp:49-74 | every step of submitters, workers and stoppers keeps the invariant: FIFO, each popped task with one worker or done, distinct ids, and each task's accepted snapshots a known front of its trace |
| JudgeSystems.NeverRefused | src/pipeline/SubmissionService.cpp:67-84 | in the running system no snapshot of an accepted submission is refused |
| JudgeTheorems.FifoExactlyOnce | src/dispatch/SubmissionQueue.cpp:11-41 | in every run accepted tasks are popped in order and each is in the hands of one worker or processed, once |
| JudgeTheorems.DrainedWhenGone | src/dispatch/JudgeWorkerPool.cpp:28-74 | when all workers have left, the queue is closed and empty and every accepted submission was processed once, with exactly its trace accepted and a terminal record unless cleaned up |
| JudgeTheorems.ClosingExactly | src/dispatch/JudgeWorkerPool.cpp:28-46 | the queue is closed, or about to be, if and only if `stop` came before any `graceful_shutdown` |
| JudgeTheorems.WorkersLeaveOnlyAfterStop | src/dispatch/JudgeWorkerPool.cpp:28-74 | no worker ever leaves after a `graceful_shutdown` that came first |
| JudgeServerTheorems.ServerStep | src/dispatch/JudgeWorkerPool.cpp:49-74 | every step of the joined server keeps the invariants of both halves and the ties between them |
| JudgeServerTheorems.StartNeverTells | src/network/SubmissionEventResponder.cpp:12-27 | in every run the query before judging finds the record QUEUED or gone, so the update announced for the start of judging is never posted |
| JudgeServerTheorems.EveryTaskReported | src/network/ClientSockets.cpp:266-294 | in every run of the whole server each popped task is with exactly one worker or has exactly one outcome: the stopped flag was set, its record was gone, or one message with its final result was posted and is accounted for; no two messages are about the same submission |
| JudgeServerTheorems.FinalResultLandsOnce | src/network/ClientSockets.cpp:281-318 | with the server at rest, the flag never set, the record still stored and the client still connected, the submission's connection has its encoded final result at exactly one place, and no other event about it is anywhere |
| JudgeDrain.WorkStep | src/dispatch/JudgeWorkerPool.cpp:49-74 | once the queue is closed every worker step takes exactly one off the work left and no other step changes it |
| JudgeDrain.DrainsInExactly | src/dispatch/JudgeWorkerPool.cpp:28-74 | from any closed state the workers have all left after exactly as many worker steps as there was work, and never take more |
| JudgeDrain.NeverStuck | src/dispatch/JudgeWorkerPool.cpp:49-74 | until then some worker always has a step to take |
| JudgeDrain.EvictionExists | src/pipeline/ResultStore.cpp:96-119 | eviction by count has an outcome for every store |
| VerdictReducers.Summarize | src/pipeline/SubmissionVerdictReducer.cpp:41-70 | the loop returns the first verdict that none outranks, the default for no cases |
| VerdictReducers.SummaryUnique | src/pipeline/SubmissionVerdictReducer.cpp:41-70 | that description fits one verdict only |
| VerdictReducers.AcceptedExactly | src/pipeline/SubmissionVerdictReducer.cpp:51-69 | AC exactly when some case is AC and all others are AC or PENDING |
| VerdictReducers.SummaryByClass | src/pipeline/SubmissionVerdictReducer.cpp:51-69 | the summary is the verdict of the first case in the worst class present, the classes from worst being CE; SYSTEM_ERROR; TLE; RE, MLE and OLE; WA and PE; UNKNOWN; AC; PENDING |
| VerdictReducers.WorstWins | src/pipeline/SubmissionVerdictReducer.cpp:51-69 | CE covers everything, SYSTEM_ERROR everything else, then TLE; WA, PE and UNKNOWN show only without anything worse |
| VerdictReducers.OrderIrrelevantExactly | src/pipeline/SubmissionVerdictReducer.cpp:13-36 | the summary is the same for every order of the cases if and only if one verdict alone holds the highest rank present |
| VerdictReducers.OrderCanDecide | src/pipeline/SubmissionVerdictReducer.cpp:21-24 | RE and MLE in either order give different summaries |
| Int64Token.EqualsDecimal | checker/src/testlib.h:2337-2371 | the digit-by-digit recheck compares with the canonical decimal; it looks before the string only when the text is a proper tail of a positive number's own digits, which the parser never passes; below zero it meets the minus sign there and answers false |
| Int64Token.ScanDigits | checker/src/testlib.h:2512-2530 | accepts exactly digit strings, counts their leading zeros, and is exact while the number fits, whatever an overflow yields |
| Int64Token.StringToLongLong | checker/src/testlib.h:2498-2544 | returns a value exactly for its canonical decimal and rejects all other nonempty tokens, whatever an overflow yields |
| Int64Token.CanonicalInjective | checker/src/testlib.h:2498-2544 | a token is the canonical decimal of at most one value |
| InStreams.InStream.Eoln | checker/src/testlib.h:2688-2719 | takes a line end, and puts back a CR that no LF follows together with what follows it, failing when an end of file cannot be put back any more |
| InStreams.InStream.ReadString | checker/src/testlib.h:2785-2815 | returns the characters up to the line end or the end of file and leaves what `eoln` leaves, or fails with it |
| InStreams.InStream.SeekEof | checker/src/testlib.h:2680-2686 | true exactly when only blanks are ahead |
| InStreams.LoneCrStalls | checker/src/testlib.h:2688-2719 | at a CR that no LF follows reading a line yields nothing and does not get past it |
| Trimming.DelLineBackSpace | checker/src/fcmp2.cpp:13-21 | the longest front of the line ending in none of the dropped characters |
| Trimming.TrimLineRight | src/runner/RunnerExecutionSupport.cpp:19-26 | the same for the built-in comparison's characters |
| OutputCompare.NormalizeOutputLines | src/runner/RunnerExecutionSupport.cpp:29-40 | the two loops give the trimmed lines without trailing empty ones |
| OutputCompare.NormalizedEqualExactly | src/runner/RunnerExecutionSupport.cpp:82-85 | equal normal forms mean exactly that all lines agree, with empty lines past the end |
| Trimming.TrimmingsAgreeExactly | checker/src/fcmp2.cpp:13-21 | on a line both trimmings give the same if and only if its last character other than space and CR is not a tab |
| Fcmp2s.Fcmp2 | checker/src/fcmp2.cpp:23-53 | the two-stream loop with the final check for extra output accepts exactly the pairs of files accepted after some number of passes, whenever it ends |
| Fcmp2s.HaltsExactly | checker/src/fcmp2.cpp:30-47 | the loop goes on for ever if and only if the files agree line by line up to a CR of the expected one that an ordinary character follows and the output holds only blank lines from there on |
| Fcmp2s.CheckerCanRunForever | checker/src/fcmp2.cpp:30-47 | on an expected file of a CR and an ordinary character, with an empty output, it does |
| Fcmp2s.AcceptsByLines | checker/src/fcmp2.cpp:30-52 | for every expected file and every output without lone CR: accepted exactly when the checker gets to the end of the expected file without meeting a lone CR and the output has the lines it compared, followed by blanks only |
| OutputCompare.PlainFilesAgree | checker/src/fcmp2.cpp:13-53 | on plain files, those without lone CR, byte 255 and tabs at a line's end, the output matches the lines the checker compares exactly when the normalised lines are equal |
| OutputCompare.CheckerAcceptsLess | src/runner/RunnerExecutionSupport.cpp:70-86 | with tabs anywhere, what the checker accepts the built-in comparison accepts |
| OutputCompare.CompareCaseOutput | src/runner/RunnerExecutionSupport.cpp:70-86 | the verdict of whichever comparison is installed |
| OutputCompare.VerdictIndependentOfChecker | src/runner/RunnerExecutionSupport.cpp:70-86 | on plain files the verdict is AC exactly when the files agree line by line after trimming, with or without the checker |
| ComparatorLimits.TextComparatorsAgreeExactly | src/runner/RunnerExecutionSupport.cpp:19-40 | for an expected file without lone CR and byte 255 both comparisons agree on every plain output if and only if none of its lines has a tab among its trailing blanks |
| ComparatorLimits.ComparatorsAgreeExactly | src/runner/RunnerExecutionSupport.cpp:70-86 | for every expected file: both comparisons agree on all plain outputs if and only if both can be passed by one or neither can; both can exactly when the file is plain |
| ComparatorLimits.LoneCrInside | checker/src/testlib.h:2688-2719 | a file with a CR inside a line is not plain, yet they agree on all plain outputs: neither can be passed |
| ComparatorLimits.OutputTabParts | src/runner/RunnerExecutionSupport.cpp:19-26 | an output with a trailing tab is accepted by the built-in comparison only |
| ComparatorLimits.OutputLoneCrParts | checker/src/testlib.h:2688-2719 | so is one with a CR inside a line |
| ComparatorLimits.OutputEndByteParts | checker/src/testlib.h:2672-2678 | an output with a byte 255 where the expected file ends is accepted by the checker only |
| ParentMonitors.CollectKilledChild | sjudge/ParentMonitor.cpp:57-71 | once reaped the child always carries a signal, its own or SIGKILL, beside the exit code and measures it left, and the timeout stays recorded; a failed wait sets only the error |
| ParentMonitors.MonitorChildProcess | sjudge/ParentMonitor.cpp:75-106 | the loop ends if some poll ends it, reflects the first such poll, and waits for the child successfully once unless `wait4` failed |
| ParentMonitors.MonitorEndsExactly | sjudge/ParentMonitor.cpp:75-106 | for limits up to 2^31 - 1, every clock advancing by at most a given gap at each poll ends the loop, whatever the child does, if and only if there is a limit and it lies at least one gap below 2^31 - 1 |
| ParentMonitors.TimeoutPossibleExactly | sjudge/ParentMonitor.cpp:46-49 | a limit can be exceeded if and only if it is neither 0 nor 2^31 - 1 |
| ParentMonitors.UnlimitedEndsWithChild | sjudge/ParentMonitor.cpp:75-106 | with those two limits the loop ends exactly when the child does or waiting fails |
| ParentMonitors.HugeLimitFiresAtOnce | sjudge/ParentMonitor.cpp:46-49 | a limit of 2^31 or more turns negative and a running child is killed at the first poll |
| ParentMonitors.TimevalToMs | sjudge/ParentMonitor.cpp:17-19 | CPU time is reported in whole milliseconds of the microseconds used, for all that fit an int |
| Sjudgers.MapMonitorResult | sjudge/ResultMapper.cpp:5-43 | which observations give which code, and that a timeout takes precedence over all |
| Sjudgers.RunSjudger | sjudge/sjudge_call.cpp:17-86 | SYSTEM_ERROR exactly when error is nonzero; a child killed on timeout and reaped is over its real time whatever exit code it left; exactly which ends of the child give success, memory, CPU time and the judge's own fault |
| CaseRunners.MapJudgeResultToVerdict | src/runner/RunnerExecutionSupport.cpp:43-59 | which codes give AC, TLE, MLE, RE and SYSTEM_ERROR; every other code is UNKNOWN and none PENDING |
| CaseRunners.RunExecutableCase | src/runner/RunnerExecutionSupport.cpp:89-166 | AC exactly when the files exist, the program ended by itself with code 0 within its limits and its output compares equal; WA exactly when only the last fails; never PENDING. In kilobytes and milliseconds: exactly when the verdict is AC, WA, TLE, MLE, RE and SYSTEM_ERROR, and what CPU time, real time, memory, exit code and signal are reported |
| CaseRunners.RanCleanlyInUnits | src/runner/RunnerExecutionSupport.cpp:106-114 | a program counts as ended cleanly exactly when it left with code 0 before any poll saw it over its real milliseconds, with its CPU milliseconds and its peak kilobytes within the limits that are set |
| CaseRunners.RunAllCases | src/pipeline/SubmissionService.cpp:329-338 | every case is reported AC exactly when the program passed it |
| CaseRunners.AcceptedEndToEnd | src/pipeline/SubmissionService.cpp:227-348 | a submission finishes with AC if and only if it was prepared and compiled, there was a case, and on every case the program ended cleanly within its limits with an output that compared equal |
| CaseRunners.PassedByLines | src/runner/RunnerExecutionSupport.cpp:70-86 | on plain files comparing equal means agreeing line by line after trimming, whichever comparison is installed |

## Left out

- ClientSockets: its handlers are steps of one system over values, not methods of a class,
  because other threads run between their locked calls; the objects they call are classes.
- SubmissionQueues.SubmissionQueue.Pop: waiting on the condition variable is a precondition
  here and the enabledness of a step in `JudgeSystems`; fairness and wake-ups are not modelled.
- ParentMonitors.MonitorChildProcess: requires that some poll ends the loop, which is exactly
  when the loop ends; `MonitorEndsExactly` and `UnlimitedEndsWithChild` say when that is so.
- Fcmp2s.Fcmp2: requires that the loop ends; `Fcmp2s.HaltsExactly` says when it does. How many ends
  of file a stream can put back before the program fails depends on its place in testlib's buffer
  and is an arbitrary number here.
- OutputCompare.CompareCaseOutput: requires the same of an installed checker.
- CaseRunners.RunExecutableCase: requires that the monitor and the comparison end where they are
  reached; `fork` returns to the parent only.
- SubmitHandlers.SubmitEnsuringAckFirst: what `submitAsync` returned and what workers posted
  meanwhile are inputs; `SubmissionQueues.SubmitAsync` and `ReplyBooking` model those.
- Buffers.Buffer.ReadFd: the extra segment is the intended second one of 65536 bytes;
  src/network/Buffer.cpp:22 assigns it to an element past the end of the array.
- Slots.ConnectionSlot.ReadMessage: a read that would block reports -1 like any failed read and
  the caller closes the connection, as the code does; the socket itself is an input.
- SubmissionServices.SubmissionService.ProcessSubmission: the log, the cleanup guard of the work
  directory and exceptions that are not a `std::exception` are not modelled.
- CaseRunners.AcceptedEndToEnd: the two runners' own checks before `run_executable_case` (request
  fields, the Python wrapper) count as missing files; both outputs are read as files that exist.
- HonestCompiler: that a failed compilation is CE or SYSTEM_ERROR is an assumption about the two
  runners; their file and compiler work is not modelled.
- src/protocol/JudgeProtocol.cpp: messages are opaque bodies tagged with a kind and a submission.
- src/network/TcpServer.cpp, src/main.cpp: sockets, `select` and `eventfd` plumbing.
- ReplyProtocol.Next: which messages a worker posts is arbitrary there; `JudgeServers` says when and
  what it posts. The two looks at the stopped flag before a message are one step.
- ResultStore's configuration overrides and the aging hook: settings are inputs of every call.
- Config, Logger, Timestamp, directory scans, seccomp, cgroup, privilege and child setup.
- Wrap-around of submission ids and of session ids past 2^64.
- A platform whose `char` is unsigned, where byte 255 does not read as end of file.
- testlib's other readers, generators and checkers, which the server does not call.
