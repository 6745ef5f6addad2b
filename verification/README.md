# NanoCMD workflow engine: a verified model

NanoCMD runs *workflows* against MDM enrollments. A workflow enqueues a *step*:
some commands for some enrollment IDs, perhaps delayed (`NotUntil`) and with a
timeout. The storage backend keeps the step and one record per enrollment and
command, takes the responses in any order, and hands the step back, once per
enrollment, when all of its commands have had their final response.

The project models that backend twice and the engine on top of it, and proves what
the two backends keep, deliver and agree on.

| part | modules |
|---|---|
| text and list codecs, decimal integers, storage records | `Wrappers`, `Text`, `Records` |
| the tracker: an abstract map of steps and `(owner, UUID)` rows | `Tracker`, `Invariant`, `Runs`, `Delivery` |
| the key-value backend over flat string-keyed buckets | `Buckets`, `KVPrim`, `KVScan`, `KVSteps`, `KVWorker`, `KVPasses`, `KVStatus`, `KVStore`, `KVEvents` |
| the MySQL backend over tables | `MySQL`, `MySQLWorker`, `MySQLStore` |
| the two backends side by side | `Simulation`, `SimPasses`, `BothRuns` |
| the engine and its worker | `Registry`, `Convert`, `Engine`, `Exclusive`, `Routing`, `Throttle`, `Worker`, `Outbox` |
| two workflows | `Profile`, `FVEnable` |
| runs that reach the failing side of the exact conditions | `Witnesses` |

The key-value backend is a class (`KVStore.KV`) whose fields are the buckets. Its
methods keep a tracker state `st` in step with the buckets: each method's result
and new state is stated as a tracker operation, so what is proved of the tracker
over whole runs holds of the buckets. The MySQL backend is a class
(`MySQLStore.MySQLStorage`) whose field is the database; its methods are stated as
functions of the tables, and a relation between tables and tracker states is kept
by every operation under conditions that are exact where the code departs.

## Assumptions

- Buckets and the database do not fail; every operation is atomic. The step
  operations of the key-value backend hold one mutex (engine/storage/kv/kv.go:58);
  its start-time methods hold none. What MySQL's count outside its transaction
  allows is shown separately (`BothRuns.CountRaceExact`, `BothRuns.CountRaceStrands`).
- Command UUIDs are fresh and of one fixed length; keys are an ID and a UUID with
  nothing between them. Lookups are stated for UUIDs of any length
  (`KVPrim.ExistsExact`); a response is taken under a UUID of another length only if
  that spells no stored command.
- Step IDs are fresh and are never enrollment IDs, since raw delayed commands are
  filed under the step ID (engine/storage/kv/kv.go:199-203).
- Elements of comma-joined lists hold no comma; `Text.SplitJoinExact` shows that
  this is exactly what the encoding needs. Raw delayed commands are not empty
  (engine/storage/kv/prim.go:173).
- In the runs an enrollment does not complete a step before its release
  (`Invariant.MayRespond`). The response methods are stated without this, and
  `Delivery.EarlyCompletionExact` and `Simulation.EarlyTablesExact` say when it would
  matter.
- In the runs of the tracker a store or release puts its messages up for sending; what
  the server does with them is a parameter (`Outbox.ArrivesExact`).
- Clocks, fresh IDs and process IDs are parameters. A time is a whole number of
  nanoseconds, and 0 is the zero time.

## Where the code and its contract part

The code is modelled as it is. Each departure has a lemma that says exactly when it
happens, and where its condition may seem out of reach, a run in `Witnesses` that
gets there.

- Cancelling with an empty name cancels nothing in the key-value backend
  (engine/storage/kv/prim.go:276 against engine/storage/storage.go:182-186):
  `Delivery.CancelAllIsIdle`, `Delivery.CancelPromiseExact`, and for the engine's
  check-ins `Engine.CheckinKeepsBlocked`. MySQL keeps this promise:
  `SimPasses.CancelKeepsContract`.
- Cancelling deletes the whole step, other enrollments included
  (engine/storage/kv/kv.go:282): `Delivery.CancelSparesOthersExact`,
  `Runs.LostOnlyByOthers`, `Witnesses.SharedCancelRun`.
- Timing out or cancelling leaves rows of a step behind:
  `Delivery.StraysExact`, `Delivery.StraysOnCancelExact`, `Witnesses.StrayRun`. Rows of
  other enrollments keep being pushed: `Delivery.StraysArePushed`.
- A NotNow after the final response replaces its report, and the workflow gets that:
  `Delivery.FinalReportStandsExact`, `Delivery.CompletionExact`, `Routing.RoutedExact`,
  `Witnesses.LateReportRun`.
- A step that is completed for one enrollment before its release, while another has
  it, stays delayed without that enrollment's rows (`Delivery.EarlyCompletionExact`,
  `Witnesses.EarlyRun`); the release then writes push times for rows that are gone,
  and the re-push scan fails from that time on (`KVWorker.StrayPushExact`).
- MySQL loses the final response of the only enrollment of a step that was not yet
  released to the foreign key of its raw commands, and repeats results if there are
  other enrollments (engine/storage/mysql/storage.go:82-133):
  `Simulation.EarlyTablesExact`, `Simulation.EarlyJoinExact`, `Witnesses.LostResponseRun`.
- A command that the server refuses is not offered again. When a step is enqueued the
  ones after it are not offered either (engine/engine.go:262-264), on release they are
  (engine/worker.go:143-149). The step stays stored: `Outbox.ArrivesExact`,
  `Witnesses.RefusedRun`.
- MySQL counts a repeated final response as the missing one
  (engine/storage/mysql/storage.go:46-67): `Simulation.CompletesSameExact`,
  `Witnesses.RepeatedRun`.
- MySQL never times out a step that was delayed and released
  (engine/storage/mysql/sqlc/query_worker.sql.go:385-393): `SimPasses.OverdueExact`,
  `Witnesses.ReleasedNeverOverdue`.
- MySQL groups what times out by enrollment only, and repeats an enrollment once per
  command on release (engine/storage/mysql/worker.go:66-73 and :152-174):
  `SimPasses.GroupingExact`, `Witnesses.GroupedTogether`, `SimPasses.EnqueuedExact`,
  `Witnesses.DelayedTwoRun`.
- MySQL keeps no report of a NotNow (engine/storage/mysql/storage.go:34-44), which the
  key-value backend hands out on a timeout: `SimPasses.TimedOutSameExact`,
  `Witnesses.ReportedRun`.
- The exclusivity check and the later store are two critical sections
  (engine/engine.go:144 and :194): `Exclusive.RaceExact`, `Witnesses.RaceRun`.
- A workflow that is told of an event or a response may enqueue steps, which nothing
  checks for exclusivity (engine/engine.go:294 and :553): `Exclusive.EventExact`,
  `Witnesses.EventRun`.
- `diff` is the set difference only if no running ID is listed twice:
  `Engine.DiffOfRunningExact`.
- A subscription stored over another keeps the contexts it leaves out:
  `KVEvents.MergedExact`. A workflow registered again with other request types keeps
  the old ones: `Registry.IndexCurrentExact`.
- Start times of IDs with dots may be shared or cleared with others':
  `KVStatus.SharedExact`, `KVStatus.ClearHitsExact`.
- A number of seconds too large for a 64-bit duration shortens the idle throttle:
  `Throttle.IdleStartsSpacedExact`, `Throttle.IdleStartsSpacedMySQLExact`.

## Model

| member | source | states |
|---|---|---|
| Text.SplitJoinExact | engine/storage/kv/prim.go:55-61 | A list comes back from its comma-joined form if and only if it is not empty and no element holds a comma. |
| Text.JoinSplit | engine/storage/kv/prim.go:55-61 | Joining the parts of any text gives the text back. |
| Text.AtoiFormatExact | workflow/context.go:84-102 | The 64-bit parse of a printed integer gives it back, negatives included, if and only if it fits. |
| Buckets.KeyInjective | engine/storage/kv/prim.go:15-53 | Equal keys are the same field of the same name, whatever dots the names hold, since each suffix starts at its key's last dot. |
| Buckets.OwnerUuidInjective | engine/storage/kv/prim.go:167-171 | An ID followed by a UUID of fixed length comes apart in one way only. |
| Buckets.PutElsewhere | engine/storage/kv/prim.go:64-113 | Writing one record leaves the records under all other names as they are. |
| Buckets.DropRecord | engine/storage/kv/prim.go:222-259 | Deleting a record's keys removes exactly the listed fields of that record. |
| KVPrim.StepReads | engine/storage/kv/prim.go:116-154 | Everything read of a stored step is what was written. |
| KVPrim.RowReads | engine/storage/kv/prim.go:157-219 | Everything read of a tracked command is what was written, and it exists and is complete exactly when its row is there and done. |
| KVPrim.ExistsExact | engine/storage/kv/prim.go:191-194 | A command is found under an ID and UUID of any length exactly when the two spell a stored pair. |
| Records.ValidateExact | engine/storage/storage.go:36-134 | A step is valid if and only if it has a workflow name, an instance ID, an enrollment and a command; it may be unnamed. |
| KVScan.FindWorkflowStepsWithIDs | engine/storage/kv/prim.go:261-296 | The scan finds, once each, exactly the stored steps of the workflow that share an enrollment with the IDs. |
| KVScan.FindStepsPast | engine/storage/kv/worker_prim.go:15-43 | The scan finds, once each, exactly the steps whose NotUntil (or Timeout) is set and has come. |
| KVScan.CheckDuplicates | engine/storage/kv/kv.go:168-183 | A step is refused if and only if an ID and command pair is repeated or already tracked. |
| KVSteps.AssembleResults | engine/storage/kv/kv.go:96-138 | The results are assembled exactly when all other commands are done, in enqueueing order, each with its request type and report. |
| KVSteps.DeleteStepIfAllIDsComplete | engine/storage/kv/prim.go:299-347 | The step is deleted if and only if no command waits for any of its enrollments. |
| KVStore.AfterCompletion | engine/storage/kv/prim.go:299-347 | After a completion a command waits for somebody exactly when another enrollment is live, and otherwise the clean-up finds no result to drop. |
| KVStore.KV.RetrieveCommandRequestType | engine/storage/kv/kv.go:40-54 | For an ID and a UUID of any length, the request type of the stored command that the two spell, or none. |
| KVStore.KV.StoreStep | engine/storage/kv/kv.go:162-213 | The buckets hold the tracker's state after the store; a rejected step leaves both buckets unchanged. |
| KVStore.KV.StoreCommandResponseAndRetrieveCompletedStep | engine/storage/kv/kv.go:57-159 | The buckets follow the tracker's response, and the result is the tracker's: rejected, recorded, or the completed step; the invariant survives unless a delayed step is completed. |
| KVStore.KV.RetrieveOutstandingWorkflowStatus | engine/storage/kv/kv.go:216-262 | Returns, once each, exactly the given IDs for which a step of the workflow is outstanding. |
| KVStore.KV.CancelSteps | engine/storage/kv/kv.go:265-287 | The buckets follow the tracker's cancelling. |
| KVStore.KV.RetrieveStepsToEnqueue | engine/storage/kv/worker.go:12-42 | Hands out each due step exactly once, with the commands that were stored, and follows the tracker's release. |
| KVStore.KV.RetrieveTimedOutSteps | engine/storage/kv/worker.go:45-101 | Hands out one result for each expired step and enrollment it is live for, once, and follows the tracker's timeout. |
| KVStore.KV.RetrieveAndMarkRePushed | engine/storage/kv/worker.go:104-108 | Returns, as a set, exactly the owners of the stale commands, and stamps exactly those commands. |
| KVStore.KV.RetrieveWorkflowStarted | engine/storage/kv/kv.go:294-309 | Returns the last recorded start, or the zero time. |
| KVStore.KV.RecordWorkflowStarted | engine/storage/kv/kv.go:312-323 | Sets the start time of the workflow for the given IDs and, among all IDs and names, exactly those that share theirs. |
| KVStore.KV.ClearWorkflowStatus | engine/storage/kv/kv.go:326-335 | Forgets exactly the start times that the ID hits, among all IDs and names. |
| KVStatus.ClearHitsExact | engine/storage/kv/kv.go:326-335 | Which start times a clear by prefix hits, for all IDs and names, dots included. |
| KVStatus.SharedExact | engine/storage/kv/kv.go:289-291 | Which enrollments and workflows share one start time, for all IDs and names. |
| KVStatus.DotFreeApart | engine/storage/kv/kv.go:289-335 | Between IDs without dots nothing is shared and a clear hits its own ID only. |
| KVWorker.ReleaseStep | engine/storage/kv/worker_prim.go:45-91 | Releasing one step hands out its raw commands, forgets them, and starts the push times of its enrollments. |
| KVWorker.TimeOutIDs | engine/storage/kv/worker.go:71-94 | What is known of each live enrollment's commands is taken out, and enrollments without commands are skipped. |
| KVWorker.FindCommandsToRePush | engine/storage/kv/worker_prim.go:171-218 | Over any bucket: fails exactly if a last push does not read or a stale one has no owner; otherwise finds each stale one once, returns its owner and stamps exactly these. |
| KVWorker.StrayPushExact | engine/storage/kv/worker_prim.go:171-226 | After a push time is written the scan still works exactly if the command is stored, the time is unset or it is after the cutoff. |
| KVPasses.OutstandingFound | engine/storage/kv/kv.go:216-262 | An ID has a waiting command in a found step if and only if it is outstanding. |
| KVPasses.CancelledAll | engine/storage/kv/kv.go:265-287 | Cancelling the found steps one by one is cancelling all matching steps at once. |
| KVPasses.ReleasedAllRows | engine/storage/kv/worker.go:12-42 | Releasing the due steps one by one is the tracker's release of all of them. |
| KVPasses.TimedOutAll | engine/storage/kv/worker.go:45-101 | Timing out the expired steps one by one is the tracker's timeout, for each live pair exactly once. |
| Invariant.StoreKeepsInv | engine/storage/kv/kv.go:162-213 | A store keeps the invariant: of a step's commands for one enrollment all exist, with one incomplete, or none. |
| Invariant.RespondKeepsInv | engine/storage/kv/kv.go:57-159 | A response of an enrollment keeps the invariant unless it completes a step before its release; `Delivery.EarlyCompletionExact` says which of those do not. |
| Invariant.ReleaseKeepsInv | engine/storage/kv/worker.go:12-42 | A release keeps the invariant. |
| Invariant.TimeOutKeepsInv | engine/storage/kv/worker.go:45-101 | A timeout keeps the invariant. |
| Invariant.CancelKeepsInv | engine/storage/kv/kv.go:265-287 | Cancelling keeps the invariant. |
| Invariant.RePushKeepsInv | engine/storage/kv/worker_prim.go:171-218 | Re-pushing keeps the invariant. |
| Invariant.PointsBack | engine/storage/kv/kv.go:194-210 | A tracked command of a stored step points back to that step. |
| Runs.RunKeepsInv | engine/storage/kv/kv.go:57-287 | The invariant holds after every run that follows the usage rules. |
| Runs.Conservation | engine/storage/storage.go:163-214 | In every run each stored (step, enrollment) is exactly one of live, completed once, timed out once, cancelled, or lost. |
| Runs.LostOnlyByOthers | engine/storage/kv/kv.go:270-285 | An enrollment is lost only by cancelling another enrollment of its step. |
| Delivery.RowHistory | engine/storage/kv/prim.go:206-215 | A row's report and completion are those of the responses received since it was stored. |
| Delivery.CompletionExact | engine/storage/kv/kv.go:68-144 | A response returns the step if and only if it is final and all other commands are answered, with one result per command in enqueueing order: stored request type, last report; these are the final reports if and only if none was overwritten. |
| Delivery.FinalReportStandsExact | engine/storage/kv/prim.go:206-215 | In every run an answered command keeps its final report if and only if no NotNow with another report was the last to come. |
| Delivery.TimedOutExact | engine/storage/kv/worker.go:71-94 | A timed-out result lists every command in enqueueing order with what the run knows of it. |
| Delivery.TimedOutUnanswered | engine/storage/kv/worker.go:45-101 | A step that times out has an unanswered command, so it could not have completed. |
| Delivery.StraysExact | engine/storage/kv/worker.go:45-101 | Timing out a step leaves rows of it behind if and only if it is still delayed. |
| Delivery.StraysOnCancelExact | engine/storage/kv/kv.go:265-287 | Cancelling a step leaves rows of it behind if and only if it is delayed or live for another enrollment. |
| Delivery.EarlyCompletionExact | engine/storage/kv/kv.go:57-159 | A response of an enrollment breaks the invariant if and only if it completes a step before its release while another enrollment has it. |
| Delivery.OutstandingExact | engine/storage/kv/kv.go:216-262 | An enrollment is outstanding if and only if a step of the workflow is live for it. |
| Delivery.TimeOutUnblocksExact | engine/storage/kv/worker.go:45-101 | After a timeout pass an enrollment is outstanding if and only if a step of the workflow is live for it and has not expired. |
| Delivery.UnblockedForGoodExact | engine/storage/kv/worker.go:45-101 | From some instant on every pass leaves the workflow unblocked for an enrollment if and only if all its live steps for it have a timeout. |
| Delivery.SentOnce | engine/engine.go:254-269 | In every run the commands of a step leave the store exactly once, at once or by one release, unless it still waits or was dropped before. |
| Outbox.EachSentOnce | engine/engine.go:254-269 | In every run the messages that come up for a stored step are its commands, each once, in order and as stored, or none exactly if it still waits or was dropped before. |
| Outbox.OffersExact | engine/worker.go:114-152 | These messages are what the engine and the worker ask of the server; what arrives of them is what it takes. |
| Outbox.ArrivesExact | engine/engine.go:254-269 | In every run, for all answers of the server, the commands of such a step all arrive if and only if it refuses none of them; otherwise those that it took do, in order, each once, and nothing else ever. |
| Delivery.ReleasedIsOriginal | engine/storage/kv/worker_prim.go:45-91 | A release hands out the original bytes, enrollments and order. |
| Delivery.ReleasedWhenDue | engine/storage/kv/worker_prim.go:15-43 | A pass releases a delayed step if and only if its time has come. |
| Delivery.RePushSettles | engine/storage/kv/worker_prim.go:171-218 | With a stamp after the cutoff a repeat returns nobody. |
| Delivery.PushedOnlyIfSent | engine/storage/kv/kv.go:190-208 | A delayed, unreleased step never causes a push, and only enrollments are pushed. |
| Delivery.CancelAllIsIdle | engine/storage/kv/prim.go:261-296 | Cancelling with an empty name changes nothing. |
| Delivery.CancelPromiseExact | engine/storage/storage.go:182-186 | Cancelling leaves nothing live as promised if and only if a name is given or nothing was live. |
| Delivery.CancelSparesOthersExact | engine/storage/kv/kv.go:265-287 | Cancelling spares all other enrollments if and only if every deleted step is live for the cancelled one alone. |
| MySQL.CountExact | engine/storage/mysql/sqlc/query.sql.go:26-42 | The self-join counts the unfinished commands of the command's step for its enrollment, and has no row if it is unknown or none is unfinished. |
| MySQL.MarkedExact | engine/storage/mysql/sqlc/query_worker.sql.go:365-393 | A fresh process ID finds again exactly the steps it has marked. |
| MySQLWorker.OwnersCount | engine/storage/mysql/worker.go:61-73 | Releasing lists an enrollment once per command. |
| MySQLWorker.OwnExact | engine/storage/mysql/worker.go:147-174 | The commands grouped for an enrollment are exactly its own, lowest step first. |
| MySQLWorker.TimedOutByQueries | engine/storage/mysql/worker.go:180-194 | The three deletions by process ID break no foreign key and remove exactly the overdue steps with their rows. |
| MySQLStore.RemovedFailsExact | engine/storage/mysql/storage.go:117-128 | Removing a finished step fails if and only if it has raw commands and no commands of other enrollments. |
| MySQLStore.CancellingExact | engine/storage/mysql/storage.go:206-242 | The deletions go through if and only if no raw command of a step without commands is left over, and then which commands, raw commands and steps remain, unchanged, row by row. |
| MySQLStore.CancelledDetermined | engine/storage/mysql/storage.go:206-242 | The rows so stated determine the tables after cancelling. |
| MySQLStore.WholeSecondsExact | engine/storage/mysql/storage.go:246-283 | A start time comes back no later than it was and by less than a second. |
| MySQLStore.MySQLStorage.StoreStep | engine/storage/mysql/storage.go:140-189 | The step is inserted as a whole if and only if no key is taken or repeated; otherwise no table changes. |
| MySQLStore.MySQLStorage.StoreCommandResponseAndRetrieveCompletedStep | engine/storage/mysql/storage.go:30-136 | The count decides between recording and handing out the joined results and removing the step. |
| MySQLStore.MySQLStorage.RetrieveOutstandingWorkflowStatus | engine/storage/mysql/storage.go:193-202 | Returns, once each, exactly the given IDs that own an unfinished command of a step of the workflow. |
| MySQLStore.MySQLStorage.CancelSteps | engine/storage/mysql/storage.go:206-242 | Fails, leaving all tables alone, exactly without an ID or if a raw command is in the way; otherwise which rows of the three tables remain. |
| MySQLStore.MySQLStorage.RetrieveStepsToEnqueue | engine/storage/mysql/worker.go:26-110 | Hands out each due step once, its raw commands once each, its enrollments once per command. |
| MySQLStore.MySQLStorage.RetrieveTimedOutSteps | engine/storage/mysql/worker.go:114-199 | Hands out one result per enrollment, with all its overdue commands, under the lowest step's context. |
| MySQLStore.MySQLStorage.RetrieveAndMarkRePushed | engine/storage/mysql/worker.go:203-224 | Returns, once each, exactly the owners of a command last pushed before the cutoff; these rows are stamped and all others unchanged. |
| Simulation.AcceptsSame | engine/storage/mysql/storage.go:140-189 | Both backends accept the same steps. |
| Simulation.StoreKeepsRel | engine/storage/mysql/storage.go:140-189 | Storing in both keeps tables and tracker related. |
| Simulation.CompletesSameExact | engine/storage/mysql/storage.go:46-67 | Both complete on the same response of an enrollment, delayed steps included, except exactly when a final response is repeated while one other command is open. |
| Simulation.EarlyTablesExact | engine/storage/mysql/storage.go:82-133 | A response that completes a step before its release is lost to a foreign key in the tables if and only if no other enrollment has the step; the tracker completes it. |
| Simulation.EarlyJoinExact | engine/storage/mysql/storage.go:82-133 | If another one has it, each other result is handed out once per raw command. |
| Simulation.RespondSimulates | engine/storage/mysql/storage.go:30-136 | A response handled by both keeps them related, if a command gets nothing after its final response. |
| Simulation.RespondAgrees | engine/storage/mysql/storage.go:30-136 | Both hand out the same step with the same multiset of results, or both none. |
| Simulation.OutstandingSame | engine/storage/mysql/sqlc/query.sql.go:294-305 | Both report the same enrollments as outstanding. |
| SimPasses.RePushSimulates | engine/storage/mysql/worker.go:203-224 | Both push the same enrollments, on cutoffs one instant apart. |
| SimPasses.OverdueExact | engine/storage/mysql/sqlc/query_worker.sql.go:385-393 | The tables time out exactly the expired steps, if and only if none of these was once delayed and then released. |
| SimPasses.TimeOutSimulates | engine/storage/mysql/worker.go:114-199 | Under that condition a timeout pass keeps both related. |
| SimPasses.GroupingExact | engine/storage/mysql/worker.go:147-174 | The result for an enrollment has a step's context and exactly that step's commands if and only if no other step of the enrollment times out in the same pass. |
| SimPasses.TimedOutSameExact | engine/storage/mysql/storage.go:34-44 | Both backends hand out the same results for a timed-out step if and only if no command without a final response has a report. |
| SimPasses.ReleaseSimulates | engine/storage/mysql/worker.go:26-110 | A release in both, at instants one apart, keeps them related. |
| SimPasses.EnqueuedExact | engine/storage/mysql/worker.go:47-99 | A release hands out the original commands, and the right list of enrollments if and only if the step has one command. |
| SimPasses.CancelSimulates | engine/storage/mysql/storage.go:206-242 | Cancelling by name breaks no foreign key and keeps both related, if it deletes no step of others. |
| SimPasses.CancelKeepsContract | engine/storage/mysql/storage.go:206-242 | Cancelling never breaks a foreign key; it leaves the enrollment outstanding for the other workflows only, for none without a name, and everybody else as before. |
| BothRuns.RunsRelated | engine/storage/storage.go:144-214 | The tables follow the tracker along every run that keeps the backends together. |
| BothRuns.BackendsAgree | engine/storage/storage.go:163-173 | After every such run the next response gets the same answer from both. |
| BothRuns.QueriesAgree | engine/storage/storage.go:179-180 | After every such run both report the same enrollments as outstanding. |
| BothRuns.StoresAgree | engine/storage/storage.go:175-178 | After every such run both accept the same steps. |
| BothRuns.CountRaceStrands | engine/storage/mysql/storage.go:46-82 | If the last two responses are both counted before either updates, neither completes the step and no later one can. |
| BothRuns.CountRaceExact | engine/storage/mysql/storage.go:46-82 | Of any number of responses in any interleaving of counts and updates, one completes the step if and only if it counts after all other open commands are updated; once all are updated, none does. |
| Engine.Diff | engine/engine.go:116-130 | Returns, once each, the items that occur unequally often in the two lists. |
| Engine.DiffExact | engine/engine.go:116-130 | That is the set difference if and only if every item of the second list occurs as often in the first. |
| Engine.DiffOfRunningExact | engine/engine.go:142-161 | For the running IDs among the input: if and only if none of them is listed twice. |
| Engine.TimeoutExact | engine/engine.go:212-228 | A stored step has a timeout if and only if it, its workflow or the engine gives one, with that precedence. |
| Engine.StorageStep | engine/convert.go:41-109 | The storage step carries the workflow's step unchanged: for each command in order its UUID, request type and plist; it fails if and only if a command is missing or lacks one of these. |
| Engine.RawIsPresent | engine/convert.go:41-74 | Raw commands are not empty if no plist is. |
| Engine.Engine.StartGroups | engine/engine.go:133-180 | Fails exactly for an unknown workflow, or if the workflow is exclusive, as it is without a configuration, and all IDs are already running. Otherwise gives all IDs, for an exclusive workflow less those already running; as listed if nobody runs and else once each, all at once or one by one. |
| Engine.Engine.StartWorkflow | engine/engine.go:133-208 | Fails exactly if the grouping does or a group's start fails; records the start for exactly the groups before the first that fails. |
| Engine.Engine.EnqueueStep | engine/engine.go:231-277 | Stores the step if it converts; then each of its commands is tracked for each enrollment under its own UUID and request type. Asks the server for the commands' plists in order, only if the step is accepted and not delayed, until one is refused; the error says which of these ended it. |
| Engine.StoredTracked | engine/engine.go:246-248 | After an accepted store the request type of every command of the workflow's step is found for every one of its enrollments. |
| Engine.Engine.MDMCommandResponseEvent | engine/engine.go:425-506 | Records a readable response of a tracked command, tells exactly the workflows that listen to its request type, and hands a completed step to its registered workflow. |
| Engine.Engine.MDMCheckinEvent | engine/engine.go:573-639 | Authenticate and check-out cancel and clear, other check-ins change nothing; then each event finds exactly its subscriptions and the workflows configured for it. |
| Engine.Engine.MDMIdleEvent | engine/engine.go:321-406 | Tells the workflows configured for it, and finds due exactly the subscriptions whose workflow has not started for their seconds. |
| Engine.CheckinKeepsBlocked | engine/engine.go:616-622 | On the key-value backend a check-in leaves exactly the same workflows outstanding. |
| Exclusive.ExclusiveRuns | engine/engine.go:142-161 | In every run of serialised handlers no enrollment has two live steps of an exclusive workflow, if what the workflow enqueues for an event is for free enrollments only. |
| Exclusive.EventExact | engine/engine.go:548-566 | A step that a workflow enqueues when told of an event keeps exclusivity if and only if those it is for had none live. |
| Exclusive.CalledBackFree | engine/engine.go:142-161 | Whoever is called back for a start, a completion or a timeout has no live step of the workflow. |
| Exclusive.StartedAreCalledBack | engine/engine.go:142-161 | The engine's start hands an exclusive workflow exactly the IDs that such a run calls back, which with distinct IDs are the free ones, and any other workflow all IDs. |
| Exclusive.RaceExact | engine/engine.go:144-194 | Of two starts, the second checked before or after the first stored: exclusivity holds if and only if they enqueue for no enrollment both, and always if it checked after. |
| Convert.ToWorkflow | engine/convert.go:153-187 | The workflow form of a storage result: single ID, readable context, results read or skipped one by one. |
| Convert.ConvertedEach | engine/convert.go:171-185 | With readable reports exactly one result comes out per command, in order. |
| Convert.ConvertedPresent | engine/convert.go:171-185 | Where empty reports are skipped, each command that has a report leaves one decoded result, in order; it fails if and only if one of these does not read. |
| Routing.ReportReads | engine/convert.go:112-133 | Every report that is kept reads as a response of its command's request type. |
| Routing.RecordableExact | engine/convert.go:112-133 | A response is recorded if and only if it is not empty, is for a tracked command and reads; under the UUID it names, and as final if and only if its status is neither empty nor NotNow. |
| Routing.NotFinalKeeps | engine/convert.go:126-132 | A response with no status or a NotNow hands nothing over, ends no step, changes nothing outstanding, and leaves only its report. |
| Routing.NotifiedExact | engine/engine.go:279-305 | With fixed configurations exactly the registered workflows that list the command's request type are told of a response that is recorded. |
| Routing.RoutedExact | engine/engine.go:425-506 | The workflow is handed its step if and only if the response has a status other than NotNow and all others have had a final one, the workflow is registered and its context reads, with its instance ID, step name, enrollment, context, and one decoded result per command; the others are their final responses if and only if none was overwritten. |
| Routing.ReturnsEnqueued | engine/convert.go:77-187 | What the workflow is so handed has the instance ID, step name and context of the step that it enqueued, and one result for each of its commands in order: the last report under the command's UUID, decoded as its request type. |
| Registry.In | engine/reg.go:5-12 | The first position of a name, or -1 if it is not there. |
| Registry.CutExact | engine/reg.go:36-43 | Cutting out one position of a list without repetition removes the name. |
| Registry.ListensExact | engine/reg.go:14-43 | With fixed configurations a name listens to a request type if and only if it is registered and its configuration lists the type. |
| Registry.IndexCurrentExact | engine/reg.go:14-73 | After any calls the index agrees with the current configurations if and only if no workflow was registered, since it was last unregistered, for a type its latest configuration leaves out. |
| Registry.Registry.RegisterWorkflow | engine/reg.go:25-34 | Registering keeps the index in step with the history of calls. |
| Registry.Registry.UnregisterWorkflow | engine/reg.go:58-73 | Unregistering too; an unknown name changes nothing. |
| Registry.HasFlagExact | engine/reg.go:91-101 | A mask that adds up some of the seven flags has exactly these. |
| Registry.Registry.AllRespWorkflows | engine/reg.go:45-55 | Returns, once each, exactly the workflows that listen to the request type. |
| Throttle.IdleNotStartedSince | engine/engine.go:367-397 | An idle event starts the workflow exactly if its event context is a positive number of seconds and more than that has passed. |
| Throttle.WaitExact | engine/engine.go:400 | Seconds become a duration without wrap-around if and only if they fit. |
| Throttle.DueExact | engine/engine.go:367-400 | An event context that does not read as a number of at least one second never makes a start due; otherwise more than that many seconds since the last one do. |
| Throttle.OtherwiseNever | engine/engine.go:378-397 | With any other event context no run has an idle-driven start. |
| Throttle.IdleStartsSpacedExact | engine/engine.go:367-406 | In every run of idle events, other starts and clears, successive idle-driven starts since the last clear are more than the configured seconds apart, if and only if the seconds fit a 64-bit duration. |
| Throttle.KeptIsLastStart | engine/storage/kv/kv.go:294-335 | The start time along such a run is the one in the bucket. |
| Throttle.KeptIsStartedOf | engine/storage/mysql/storage.go:246-288 | And in the MySQL table. |
| Throttle.IdleStartsSpacedMySQLExact | engine/storage/mysql/storage.go:246-283 | With whole-second start times, less by under one second, under the same condition. |
| Worker.WorkerLoop.ProcessEnqueuings | engine/worker.go:114-152 | Asks the server, for each due step once, for the commands as they were stored, in order, whatever it answers; exactly those that it accepts are sent. |
| Worker.WorkerLoop.ProcessTimeouts | engine/worker.go:154-194 | Hands over, in order, exactly those timed-out steps and live enrollments whose workflow is registered, whose context reads and whose reports, if not empty, read: with instance ID, name, context, enrollment, and these reports decoded in the order of the commands. |
| Worker.TimeoutHandedExact | engine/worker.go:168-183 | In every run, what this asks of the reports is asked of the last report of each command, and holds of all that the engine records. |
| Worker.TimeoutReturnExact | engine/convert.go:171-185 | In every run, what is handed over for a timed-out step is what the workflow enqueued, with the last report of each command that has one, decoded, in enqueueing order. |
| Worker.WorkerLoop.ProcessRePushes | engine/worker.go:196-215 | Asks for one push of exactly the enrollments with a stale command, or for none if there are none; fails exactly if that is refused. |
| Worker.WorkerLoop.RunOnce | engine/worker.go:81-95 | One pass asks the server for what is due, hands over what has expired of the rest, and asks for a push of whom the re-push finds, each exactly. |
| Worker.NeverBlocked | engine/engine.go:212-237 | If each step had a timeout from itself, its workflow or the engine, a workflow is outstanding after a pass exactly for live steps whose timeout is to come, and from some instant on no longer. |
| KVEvents.FlagRoundTripExact | workflow/event.go:34-74 | Flag names and numbers survive the trip through each other exactly if they are those of one flag. |
| KVEvents.FlagsInOrder | workflow/event.go:11-75 | The seven events have the powers of two from 1 to 64 in order, and no other name has a flag. |
| KVEvents.ValidSubscriptionExact | engine/storage/storage.go:235-249 | A subscription is valid if and only if it names one of the seven events and a workflow. |
| KVEvents.WithFlagExact | engine/storage/kv/event.go:104-146 | A subscription is to an event if and only if it names that event. |
| KVEvents.SubscriptionReads | engine/storage/kv/event.go:48-87 | Reading gives what was stored for every name, dots included, and fails for others. |
| KVEvents.MergedExact | engine/storage/kv/event.go:27-46 | A subscription is stored as given if and only if the name is new or it leaves out no context that was there. |
| Registry.Registry.EventWorkflows | engine/reg.go:91-101 | Returns, once each, exactly the workflows configured for the event. |
| KVEvents.EventStore.StoreEventSubscription | engine/storage/kv/event.go:148-154 | A valid subscription is stored under its name; an invalid one changes nothing. |
| KVEvents.EventStore.RetrieveEventSubscriptionsByEvent | engine/storage/kv/event.go:104-146 | Returns, once each, exactly the subscriptions to that event. |
| KVEvents.EventStore.DeleteEventSubscription | engine/storage/kv/event.go:156-163 | Deleting removes exactly that subscription. |
| Profile.NamesRoundTripExact | workflow/profile/context.go:12-26 | The list of names survives the step's context if and only if it is not empty and no name holds a comma. |
| Profile.SplitInstallRemove | workflow/profile/workflow.go:125-139 | A name is managed if and only if some entry is the name, or a minus and the name; its last such entry decides: removal after a minus, else installation. |
| Profile.ListStepCompleted | workflow/profile/workflow.go:141-235 | Fails if and only if a listed profile is not stored. Otherwise, whatever the map order: there are no commands exactly if the device has what the list asks for; after them it has exactly if the list does not contradict itself; other profiles stay as they are. |
| Profile.CommandExact | workflow/profile/workflow.go:167-222 | A name causes a command if and only if the device lacks what it asks for, and that command brings it about. |
| Profile.ConvergesExact | workflow/profile/workflow.go:167-222 | Running the commands in any order meets every name if and only if no two names ask for different things under one identifier. |
| Profile.SecondRunIdle | workflow/profile/workflow.go:219-234 | A run enqueues nothing if and only if the device already has what is asked for. |
| FVEnable.CounterRoundTripExact | workflow/context.go:84-102 | The counter comes back from the step's context if and only if it is a 64-bit integer. |
| FVEnable.Workflow.PollStepCompleted | workflow/fvenable/workflow.go:179-238 | A poll escrows, polls again with a counter one lower, or fails. |
| FVEnable.PollingEnds | workflow/fvenable/workflow.go:33-238 | One instance polls an enrollment at most 182 times, two minutes after each reply, exactly as often as fruitless replies allow, with counters 180 down to -1; it escrows the key of the first other reply, if it has one, for that enrollment, and never polls after. |
| FVEnable.PollingFromInstall | workflow/fvenable/workflow.go:145-169 | A valid installation starts this polling, after two minutes, with the counter at 180. |
| Witnesses.LateReportRun | engine/storage/kv/prim.go:206-215 | A run reaches an overwritten report with all else answered. |
| Witnesses.RepeatedRun | engine/storage/mysql/storage.go:46-67 | A run reaches tables that take a repeated final response for the missing one. |
| Witnesses.ReleasedNeverOverdue | engine/storage/mysql/sqlc/query_worker.sql.go:385-393 | A run reaches an expired step that was delayed and released, which the tables do not time out. |
| Witnesses.GroupedTogether | engine/storage/mysql/worker.go:147-174 | A run reaches two overdue steps of one enrollment, and the result for it is not either step's. |
| Witnesses.DelayedTwoRun | engine/storage/mysql/worker.go:66-73 | A run reaches a delayed step of two commands, and its release repeats the enrollment. |
| Witnesses.RefusedRun | engine/engine.go:254-269 | A run in which the server refuses a command leaves the step live without its commands on the server. |
| Witnesses.LostResponseRun | engine/storage/mysql/storage.go:82-133 | A run reaches tables that lose the final response to a delayed step. |
| Witnesses.EventRun | engine/engine.go:548-566 | A step enqueued for an event breaks exclusivity. |
| Witnesses.ReportedRun | engine/storage/mysql/storage.go:34-44 | A run reaches an overdue step with a NotNow's report, which the tables do not keep. |
| Witnesses.StrayRun | engine/storage/kv/worker.go:45-101 | A run reaches an expired delayed step, whose raw command stays behind. |
| Witnesses.SharedCancelRun | engine/storage/kv/kv.go:270-285 | A run reaches a shared step whose cancelling ends it for the other enrollment. |
| Witnesses.EarlyRun | engine/storage/kv/kv.go:57-159 | A run reaches a shared delayed step whose early completion breaks the invariant. |
| Witnesses.RaceRun | engine/engine.go:144-194 | Two starts whose checks both saw the empty store break exclusivity. |

## Left out

- KVStore.KV.StoreStep: the push time that is passed in is not used by this backend, as in the code; it takes its own clock.
- KVStore.KV.CancelSteps: an error half-way, which would leave a part of the steps cancelled, cannot occur as buckets do not fail.
- KVStore.KV.StoreCommandResponseAndRetrieveCompletedStep: assumes that the ID is no step ID, and that a UUID of another length than the fixed one spells no stored command.
- MySQLStore.MySQLStorage.StoreStep: the whole-second precision of the TIMESTAMP columns, to which MySQL rounds NotUntil, timeouts and push times (engine/storage/mysql/schema.sql), is not modelled; only the start times, which the Go code truncates itself, are.
- MySQLStore.MySQLStorage.StoreCommandResponseAndRetrieveCompletedStep: the timestamp column `updated_at`, column widths, collations and character sets are not modelled.
- Engine.Engine.StartWorkflow: whether the workflow's own start works for a group is a parameter; the steps that it enqueues are calls of EnqueueStep, and the runs of `Exclusive` put the two together.
- Engine.Engine.MDMIdleEvent: finds the starts that are due at the event; the starts themselves are StartWorkflow.
- Worker.WorkerLoop.RunOnce: the workflows' own reactions to the timeouts it hands over are not part of the pass.
- The MySQL backend's request-type lookup, which is one keyed read.
- Times are written to buckets as decimal text instead of RFC 3339 text; both give the time back.
- Goroutines, the ticker loop, logging, options, HTTP handlers, webhooks and the MDM server clients. Event dispatch is the set of starts and calls it makes, in no order.
- Property lists, certificates and key escrow: payloads are opaque bytes and their readers parameters.
- The profile store is a map from names to profiles; a profile's raw bytes are assumed to hold its own identifier and UUID.
- Aliasing of Go slices, such as the in-place removal in the registry's lists.
- Workflows inventory, lock, devinfolog, fvrotate, certprof and cmdplan, and the subsystem stores: straight-line code.
