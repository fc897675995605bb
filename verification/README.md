# Collector service: a verified model

The service polls field devices. A controller starts and stops one worker thread per device; each worker asks a driver
for the device's data points every few hundred milliseconds, stores the answers in SQLite, trims the table once a
minute and publishes a status. Commands arrive as JSON text, over WebSocket or through two HTTP routes, and the JSON is
written and read by hand. This project models that logic in Dafny and proves what it keeps.

| file | models |
|---|---|
| `StatusStore.dfy` | the store of statuses, active names, thread handles and stop flags, as a class; each method is one critical section |
| `WorkerProtocol.dfy` | one controller and any number of workers, interleaved step by step over that store |
| `OrderEffects.dfy` | what a start, a stop, startAll and stopAll have done when they return, whatever the workers do meanwhile |
| `WorkerLoop.dfy` | the worker's loop, its sleep, the status it publishes, the rows it leaves behind |
| `Retention.dfy` | the Resources table: inserts, the `/latest` query, the two cleanups |
| `DeviceStore.dfy`, `CommandProcessor.dfy` | the Device and DataPoint tables with constraints and rollback, and the command handlers |
| `ModelParser.dfy` | the line-by-line model parser |
| `Strings.dfy`, `JsonText.dfy`, `KeySearch.dfy`, `FieldText.dfy` | `std::string` searches, the escaper, the decoders, and where a decoder's search for a quoted key can end |
| `CommandText.dfy`, `HttpText.dfy`, `NumberText.dfy` | replies, command envelopes, integers, decimal numbers, percent decoding, query parameters, the task routes |
| `SerialisedJson.dfy` | the JSON values that the four serialisers print |
| `DriverAnswers.dfy` | reading a driver's answer of any shape, with fields missing |
| `QueryText.dfy`, `MockDriver.dfy`, `BraceScan.dfy`, `ResponseParser.dfy`, `CollectionRoundTrip.dfy` | the collection exchange as text, from points to query to answer to readings |

A method that changes state is proved against a function on values, and the results are lemmas about these functions.
`dafny verify dfyconfig.toml` checks everything.

## Main results

* **Workers.** In every run under every interleaving, rejected duplicate starts included: a name has at most one
  unfinished worker, its handle is held exactly once, no joinable handle is overwritten, and when `stopAll` returns
  every worker has finished (`EveryRunIsSafe`, `StopAllLeavesNoWorker`).
* **Orders.** When a stop of a registered run returns, every worker the device ever had is over and the device is neither
  active nor flagged; a stop that finds it active also leaves no handle, and one that finds it inactive changes nothing
  (`StopEndsDevice`, `StopOfActive`, `StopOfInactive`). A start of an inactive device makes exactly one worker and keeps
  its handle, one of an active device makes none (`StartMakesOneWorker`, `StartOfActiveRefused`); `startAll` does so for
  each name in turn (`StartAllStartsEach`, `PendingBegunInTurn`). Other devices keep their handles, get no worker and are
  not told to stop (`OthersUndisturbed`).
* **Registration.** The wish that a live worker's stop flag is always registered is false of the code. The refusal
  branch of a start erases the flag and the active mark of a healthy worker with the same name, and a later `stopAll`
  then waits for a worker that nobody has told to stop (`DuplicateStartThenStopAll`). It holds in a run if and only if
  no such refusal happens (`AlwaysRegisteredExactly`), and callers who start a name only after its last worker has run
  its final `markStopped` never cause one (`CarefulRunsAreSound`). In their runs no stop gets stuck: from every point
  the controller and the workers told to stop can bring it to its end (`CarefulStopsComplete`).
* **Active names.** "Active implies unfinished" is false as well, since the thread runs before `addWorker` does
  (`ActiveAfterFinish`). It holds in a run if and only if no `addWorker` comes after its worker's final `markStopped`
  (`AlwaysActiveExactly`).
* **Retention.** `/latest` lists the newest hundred rows, largest SvrTime first and then largest id, and leaves out only
  older ones (`LatestListsNewest`); what a cleanup deletes is older than what it keeps (`DeviceCleanupKeepsNewest`).
  `/latest` answers as if no cleanup had ever run, for limits that are non-positive or at least 100
  (`CleanupIsInvisible`); below that, exactly when it shows is `DeviceCleanupVisibleExactly`. The global cleanup differs
  from the per-device ones exactly on rows with an empty device name. The table size is bounded across stops and
  restarts, with one more batch for each cycle whose close or cleanup failed (`RowsStayBounded`).
* **Coherence.** Commands run with a storage fault at any of their writing statements. Create, delete, start and
  initialisation keep the invariant under every fault. `updateDevice` writes outside a transaction, and a fault can
  leave orphaned or outdated points behind (`TornRename`). It keeps the invariant if and only if the fault does not
  strike between the device row and the last point statement it needs, while the device has points
  (`UpdateKeepsCoherentExactly`), and a run does if and only if no update is torn like this (`RunCoherentExactly`). The
  uniqueness constraint never stops a rename (`RenameNeverClashes`).
* **What the cache holds.** In a coherent table a device's points are absent or what the parser makes of its current
  model, in order, in name path, item name and description. Their item paths carry the device's name and are not
  rewritten by a rename (`RenamedDevice`); they are the parser's if and only if the device still has the name its rows
  were last written under (`CacheExactly`).
* **Text.** A decoder finds a quoted key anywhere in the text, also inside values. A match can only close on the
  closing quote of a string that is the key or ends with a quote and the key (`KeySearchExactly`). From this follow the
  round trips of replies, envelopes, queries and answers for all strings, such as a message that ends with `"mid` or a
  device called `mid`. Decoding drops the backslash and nothing else, so a newline comes back as the letter n; the
  round trips are therefore stated up to `Letters`, and hold exactly for text on one line (`ReplyRoundTrip`,
  `StartNamedDevice`, `QueryRoundTrip`). The query's reader ends its list at the first `]`, also inside a path
  (`QueryReceived`).
* **Serialisers.** The reply, the command envelope, the query and the mock's answer are exactly the printed JSON objects
  of their fields, for all strings (`ReplyIsJson`, `EnvelopeIsJson`, `QueryIsJson`, `AnswerIsJson`).
* **Answers.** For any JSON answer with a data member, whatever else it holds and in whatever order: the records are those
  of the points whose object has a value array, in order, with the point's own item path, name and description and the
  collector's clock in exactly the places that are missing, empty or refused (`AnswerRecords`, `BareRecord`).
* **Exchange.** Query, answer and reading together give one reading per point, in order, for every device name and
  clock (`ExchangeReadings`). The cid is the name, a dash and the milliseconds. A path is found in it exactly when it
  ends in that dash and those digits and the name is, or ends with a quote and, what stands before them (`CidMimics`).
  Its point is then given the first point's reading, as for a device `x"/c/n` with the item `/c/n-<now>`
  (`MisledDevice`); all points get their own if and only if no such path differs from the first one in its item
  (`EveryPointRead`). This never happens to paths that do not end in a dash and digits, nor to names without a slash
  (`UnstampedExchange`, `SlashFreeExchange`).
* **Parser.** Printing any model in the layout of `config/models/M1.yaml` and parsing it gives back its items, with quoted
  or bare values, their last description and their last path if they give one (`PrintedModelParses`), and texts can be concatenated at component boundaries (`ParseAppend`).

## Where the documentation says otherwise

The model follows the code. The project's README says that `stop_all` stops all active workers; after a refused
duplicate start it can wait for one that was never told to stop (`DuplicateStartThenStopAll`). `docs/phase-tracking.md`
lists `cleanupResources` among the stages that a status error can name; the code only logs a failed cleanup, so it never
reaches the status (`RunCycle`).

## Inputs from outside

The database's rejections and the moment a worker leaves its loop are free choices of the protocol's steps. In the
worker loop, what the database and the driver answer in a cycle and how long it takes is the cycle's input, the stop flag goes up at
an arbitrary poll, and a sleep lasts at least its duration. A storage fault can strike at any writing statement or at
the commit. The model repository is a map from model and version to text. The mock driver's clock reading is the text of
a number. A char of a request target is a byte; elsewhere a char is one unit of text that only the characters named in
the code distinguish. Numbers are exact reals: rounding to doubles is not modelled.

## Model

| member | source | states |
|---|---|---|
| StatusStore.DeviceStatusStore.RequestStopAll | src/task/DeviceStatusStore.cpp:5-10 | every registered flag is up, nothing else changes |
| StatusStore.DeviceStatusStore.TakeAllThreads | src/task/DeviceStatusStore.cpp:12-22 | each joinable handle is moved out exactly once and the map is emptied |
| StatusStore.DeviceStatusStore.ClearAllWorkers | src/task/DeviceStatusStore.cpp:24-28 | flags and active names are emptied, handles and statuses stay |
| StatusStore.DeviceStatusStore.GetStatus | src/task/DeviceStatusStore.cpp:30-38 | the stored statuses, one per name, in the order of the names |
| StatusStore.BeforeExactly | src/task/DeviceStatusStore.cpp:34-36 | the order of the listed names: equal up to a place where the first ends or has the smaller character |
| StatusStore.DeviceStatusStore.IsActive | src/task/DeviceStatusStore.cpp:40-43 | true if and only if the name is active |
| StatusStore.DeviceStatusStore.TakeThread | src/task/DeviceStatusStore.cpp:45-54 | the name's handle, or one that is not joinable; its entry is gone |
| StatusStore.DeviceStatusStore.EraseStopFlag | src/task/DeviceStatusStore.cpp:56-59 | only the name's flag entry is gone |
| StatusStore.DeviceStatusStore.AddWorker | src/task/DeviceStatusStore.cpp:61-68 | active mark, flag and handle are set together; the overwritten handle must not be joinable |
| StatusStore.DeviceStatusStore.MarkStartFailed | src/task/DeviceStatusStore.cpp:70-74 | active mark and flag of the name are gone, handle and status stay |
| StatusStore.DeviceStatusStore.RequestStop | src/task/DeviceStatusStore.cpp:76-87 | refuses an inactive name and then raises nothing; otherwise the registered flag is up |
| StatusStore.DeviceStatusStore.MarkStopped | src/task/DeviceStatusStore.cpp:89-93 | the same effect as a failed start |
| StatusStore.DeviceStatusStore.SetLatestStatus | src/task/DeviceStatusStore.cpp:95-98 | the status is stored under the device's own name, every other entry stays |
| WorkerProtocol.StepKeepsInv | src/DataTask.cpp:59-174 | the handle, flag and name invariant survives every step of controller and workers |
| WorkerProtocol.OneLivePerName | src/DataTask.cpp:127-138 | two unfinished workers never share a name |
| WorkerProtocol.LiveHeldExactlyOnce | src/DataTask.cpp:127-138 | an unfinished worker's handle is in exactly one place: the map or one of the controller's locals |
| WorkerProtocol.EveryRunIsSafe | src/DataTask.cpp:102-174 | after any run: no overwritten joinable handle, one unfinished worker per name, each handle held once |
| WorkerProtocol.StopAllLeavesNoWorker | src/DataTask.cpp:59-71 | when stopAll returns all workers ever created have finished and the store is empty of them |
| WorkerProtocol.WorkerStepIsLocal | src/DataTask.cpp:176-273 | a worker's steps touch no other name's status, flag, activity or handle, and raise no flag |
| WorkerProtocol.WorkerStepEffect | src/DataTask.cpp:246-272 | a published status is stored under the worker's name, and its final markStopped leaves it finished, inactive and without a flag |
| WorkerProtocol.FinishErasesOnlyItself | src/DataTask.cpp:272 | an old worker's markStopped never removes a newer worker's registration |
| WorkerProtocol.RegistrationLostExactly | src/DataTask.cpp:140-143 | a step loses a live worker's registration if and only if it is a refused start on that name |
| WorkerProtocol.AlwaysRegisteredExactly | src/DataTask.cpp:102-147 | a run keeps all live workers registered if and only if it has no such refusal |
| WorkerProtocol.StepKeepsJoinsAnswered | src/DataTask.cpp:131-135 | with workers registered, handles about to be joined belong to finished or flagged workers after every step |
| WorkerProtocol.RegisteredRunsAnswerJoins | src/DataTask.cpp:59-67 | over whole runs no join waits for a worker that has not been told to stop |
| WorkerProtocol.CarefulRunsNeverOrphan | src/DataTask.cpp:34-53 | starts, also by startAll, only after the last worker's markStopped never hit a live worker |
| WorkerProtocol.CarefulRunsAreSound | src/DataTask.cpp:102-174 | such callers get registration and answered joins in every run |
| WorkerProtocol.StartOverLiveWorkerOrphans | src/DataTask.cpp:127-143 | a start over a registered live worker always ends with that worker finished or unregistered |
| WorkerProtocol.UnreachableUntilItEnds | src/DataTask.cpp:140-143 | an orphaned worker's flag stays down under any later commands |
| WorkerProtocol.DuplicateStartThenStopAll | src/DataTask.cpp:59-71 | a concrete run in which stopAll waits for a worker nobody told to stop, and no helpful step is left |
| WorkerProtocol.ActiveAfterFinish | src/DataTask.cpp:138 | a concrete careful run that leaves a finished device active |
| WorkerProtocol.ActiveLostExactly | src/DataTask.cpp:138 | a step leaves a name active without a live worker if and only if it is an addWorker after that worker's end |
| WorkerProtocol.AlwaysActiveExactly | src/DataTask.cpp:127-138 | through a run, active names have live workers if and only if there is no such addWorker |
| WorkerProtocol.StopCompletes | src/DataTask.cpp:59-71 | from any sound position a pending stop or stopAll can be finished by the controller and flagged workers alone |
| WorkerProtocol.CarefulStopsComplete | src/DataTask.cpp:149-174 | so no stop of a careful run is stuck |
| OrderEffects.ConsistentFromStart | src/task/DeviceStatusStore.cpp:61-93 | after every run a name with a flag is active, and only existing workers have been told to stop |
| OrderEffects.OthersUndisturbed | src/DataTask.cpp:127-171 | until a start or stop of one device is over, every other device keeps its handle, gets no worker, is not told to stop, and is unchanged if its own worker does nothing |
| OrderEffects.StopOfActive | src/DataTask.cpp:159-171 | a stop that finds the device active tells its worker and ends with all its workers finished and no mark, flag or handle left |
| OrderEffects.StopOfInactive | src/DataTask.cpp:159-162 | a stop that finds the device inactive is over at once: no flag is raised, the store and the workers stay |
| OrderEffects.StopEndsDevice | src/DataTask.cpp:149-174 | when a stop of a registered run returns, all workers of the device have finished, it is neither active nor flagged, and other devices are undisturbed |
| OrderEffects.StopAllEndsEverything | src/DataTask.cpp:59-71 | from the call to the return of stopAll, under any interleaving: all workers finished, no mark, flag or handle left |
| OrderEffects.StopAllTellsEveryone | src/task/DeviceStatusStore.cpp:5-10 | every registered worker has been told to stop, and stays so |
| OrderEffects.StartMakesOneWorker | src/DataTask.cpp:127-138 | an unrefused start of an inactive device makes exactly one worker, keeps its handle, and leaves every older worker of the device finished |
| OrderEffects.StartOfActiveRefused | src/DataTask.cpp:127-143 | a start of an active device makes no worker, keeps the old handle, and erases mark and flag |
| OrderEffects.StartEndsEitherWay | src/DataTask.cpp:102-147 | whatever happens meanwhile, a start ends in one of these two ways, with other devices undisturbed |
| OrderEffects.StartCompletes | src/DataTask.cpp:131-138 | the controller alone can bring a sound start to its end |
| OrderEffects.StartAllStartsEach | src/DataTask.cpp:34-53 | an unrefused startAll of inactive devices makes one worker for each, in order, and those still at work are registered |
| OrderEffects.PendingBegunInTurn | src/DataTask.cpp:39-52 | with refusals and failures in between, the pending names are begun one after the other, each once |
| WorkerLoop.SleepUntilNextCycle | src/DataTask.cpp:275-285 | sleeps exactly the larger of the interval and 100 ms unless stopped, and then at most one more step of 100 ms |
| WorkerLoop.Collect | src/DataTask.cpp:226-244 | a batch is inserted whole or not at all; unless the close fails, a cleanup to the newest 5000 rows follows when 60 seconds have passed and then dates itself |
| WorkerLoop.RunCycle | src/DataTask.cpp:184-267 | the stored status field by field with the failure's text, the failure count and the table after one cycle, in terms of its outcome |
| WorkerLoop.RunDeviceTask | src/DataTask.cpp:176-273 | ends at the first five failures in a row or at the stop; the stored status has the history's failure count, last success, connection and error, no other entry changes, and the registration is erased |
| WorkerLoop.TrailingFailuresMeaning | src/DataTask.cpp:246-266 | the failure count is the length of the trailing run of failures |
| WorkerLoop.LastSuccessTimeMeaning | src/DataTask.cpp:250 | the time of the last good cycle, and 0 before the first |
| WorkerLoop.FewFailuresMeaning | src/DataTask.cpp:263-266 | a history never stopped for failures if and only if any five neighbouring cycles hold a success |
| WorkerLoop.ErrorExactlyWhenFailing | src/DataTask.cpp:246-260 | the error is empty and the device connected if and only if the failure count is 0 |
| WorkerLoop.KeptIsHistory | src/DataTask.cpp:180-244 | the loop's table is the event history of one restart and its own cycles |
| WorkerLoop.EventKeepsBudget | src/DataTask.cpp:226-244 | each event keeps the budget of batches since the last cleanup, and a batch that misses its cleanup adds one |
| WorkerLoop.RowsStayBounded | src/DataTask.cpp:180-269 | at most 5000 + (599 + k)p rows between cycles and p more at any moment, across restarts and foreign operations, where k cycles failed to close or clean up |
| WorkerLoop.WorkerCleanupIsInvisible | src/DataTask.cpp:234-244 | over any history the latest list of every device is as if the worker had only inserted |
| Retention.ResourceStore.InsertResources | src/SQLiteManager.cpp:119-124 | all rows in order with new ids, or the old table when a fault strikes at any row or the commit |
| Retention.ResourceStore.GetLatest | src/db/ResourceRepository.cpp:30-52 | the device's newest rows, as many as there are up to a hundred, by SvrTime and then id; each row left out is older than each listed one |
| Retention.ResourceStore.CleanupResources | src/SQLiteManager.cpp:131-136 | for every device the newest rows up to the limit stay, each newer than each deleted one; nothing changes when it fails or the limit is not positive |
| Retention.ResourceStore.CleanupResourcesForDevice | src/SQLiteManager.cpp:138-143 | the device's newest rows up to the limit stay, each newer than each deleted one, and other devices' rows stay; nothing changes when it fails |
| Retention.LatestListsNewest | src/db/ResourceRepository.cpp:34-35 | the latest list holds the newest hundred rows by SvrTime and then id, and only older ones are left out |
| Retention.RowNumberIsPosition | src/db/ResourceRetentionService.cpp:18 | a row's rank by counting newer rows is its position in the ordered list |
| Retention.DeviceCleanupTrims | src/db/ResourceRetentionService.cpp:26-41 | the device's ordered list is cut to the limit, every other list stays |
| Retention.GlobalCleanupTrims | src/db/ResourceRetentionService.cpp:10-24 | every device's ordered list is cut to the limit |
| Retention.KeptRowNumber | src/db/ResourceRetentionService.cpp:34-36 | a row that survives keeps its rank |
| Retention.DeviceCleanupsCompose | src/db/ResourceRetentionService.cpp:26-41 | two cleanups amount to one with the smaller limit, so cleanup is idempotent |
| Retention.GlobalCleanupsCompose | src/db/ResourceRetentionService.cpp:10-24 | the same for the global form |
| Retention.DeviceCleanupKeepsNewest | src/db/ResourceRetentionService.cpp:26-41 | exactly min(count, limit) rows remain, each with a larger SvrTime than each deleted one, or the same and a larger id |
| Retention.GlobalCleanupKeepsNewest | src/db/ResourceRetentionService.cpp:10-24 | the same for every device at once |
| Retention.GlobalCleanupIsPerDevice | src/db/ResourceRetentionService.cpp:10-41 | global equals per-device over all names in any order, if and only if no empty-named row is over the limit |
| Retention.CleanupIsInvisible | src/db/ResourceRepository.cpp:30-52 | after any run the latest list is the one of the same run without cleanups |
| Retention.DeviceCleanupVisibleExactly | src/db/ResourceRepository.cpp:35 | a cleanup changes the answer if and only if its limit is below 100 and below the row count |
| DeviceStore.SQLiteManager.GetDeviceByName | src/db/DeviceRepository.cpp:36-46 | a stored device of that name, or none exactly when there is none |
| DeviceStore.SQLiteManager.GetDataPointsByDeviceName | src/db/DataPointRepository.cpp:42-61 | exactly the rows of that device, in the order of their ids |
| DeviceStore.SQLiteManager.DeleteDataPointsByDeviceName | src/db/DataPointRepository.cpp:10-14 | exactly the rows of that name are gone |
| DeviceStore.SQLiteManager.CreateDevice | src/SQLiteManager.cpp:55-61 | refuses a taken name with its text, otherwise adds one row that holds every field under the next id; a fault adds nothing |
| DeviceStore.SQLiteManager.UpdateDevice | src/SQLiteManager.cpp:63-78 | the row takes every field under its old id, the points follow the rename or are dropped with the model, other rows stay; each refusal's text, and what is left when a fault strikes at any statement |
| DeviceStore.SQLiteManager.DeleteDevice | src/SQLiteManager.cpp:80-90 | no device row and no point row of the name is left, all others stay in order, counters too; or, with a fault at any statement, nothing changes |
| DeviceStore.SQLiteManager.ReplaceDataPointsForDevice | src/SQLiteManager.cpp:102-107 | succeeds if and only if the paths are distinct and no fault strikes: old rows gone, others kept, one row per point with the next ids; otherwise the whole table is as before |
| DeviceStore.ReplacedReadsBack | src/db/DataPointRepository.cpp:23-61 | reading back gives the new points in order with the device's id and name, other devices' rows stay |
| DeviceStore.UnusedNameHasNoPoints | src/SQLiteManager.cpp:55-61 | a name without a device has no rows, so a new device starts without points |
| DeviceStore.CacheExactly | src/DataTask.cpp:86-90 | a device's rows are what the parser makes of its current model; in the item path too if and only if it has the name they were written under |
| DeviceStore.RenameKeepsItemPaths | src/db/DataPointRepository.cpp:16-21 | after a rename with the model kept the rows are unchanged and no longer the parser's |
| DeviceStore.RenamedDevice | src/db/DataPointRepository.cpp:16-21 | a concrete device renamed from a to b whose row still says /DV:a |
| DeviceStore.RenameNeverClashes | src/SQLiteManager.cpp:63-78 | the rename in updateDevice never meets the uniqueness constraint |
| DeviceStore.CreateKeepsCoherent | src/SQLiteManager.cpp:55-61 | creation keeps the invariant under any fault and the new device has no points |
| DeviceStore.UpdateKeepsCoherentExactly | src/SQLiteManager.cpp:63-78 | update keeps the invariant if and only if no fault strikes between the device row and the last needed point statement while points exist |
| DeviceStore.TornRename | src/SQLiteManager.cpp:71-74 | a concrete update that a fault leaves with an orphaned point |
| DeviceStore.DeleteKeepsCoherent | src/SQLiteManager.cpp:80-90 | deletion leaves no orphaned rows, under any fault |
| DeviceStore.DeletedRows | src/SQLiteManager.cpp:86-89 | a deleted device is gone with its points, every other row is kept in order |
| DeviceStore.DeletedThenCreated | src/SQLiteManager.cpp:55-90 | after a delete, a create of the same name is accepted and makes a device without points |
| DeviceStore.UpdatedRows | src/SQLiteManager.cpp:63-78 | what an update does to each row, said row by row and field by field |
| DeviceStore.InitKeepsCoherent | src/DataTask.cpp:77-100 | initialisation keeps the invariant under any fault, and changes nothing when it fails |
| DeviceStore.PreparedHasPoints | src/DataTask.cpp:115-125 | a start that passes the database half has points |
| DeviceStore.CommandCoherentExactly | src/CommandProcessor.cpp:61-127 | a command with any fault keeps unique names and ids, owned points and faithful caches if and only if it is not a torn update |
| DeviceStore.RunCoherentExactly | src/CommandProcessor.cpp:26-59 | a run with faults is coherent throughout if and only if no update is torn |
| DeviceStore.RunKeepsCoherent | src/CommandProcessor.cpp:26-59 | in particular when no storage error strikes an update |
| CommandProcessing.CommandProcessor.InitDataPointsByDevice | src/DataTask.cpp:77-100 | on success the rows are the parser's for the device's model text; each refusal and each fault with its text and nothing changed |
| CommandProcessing.CommandProcessor.HandleCreateDevice | src/CommandProcessor.cpp:61-84 | each refusal with its text; the device row is there even when its initialisation fails, and its points are when the reply is 200 |
| CommandProcessing.CommandProcessor.HandleDeleteDevice | src/CommandProcessor.cpp:86-97 | a missing device is refused; a 200 means that no row of the name is left, and without a fault an existing device gives it |
| CommandProcessing.CommandProcessor.HandleUpdateDevice | src/CommandProcessor.cpp:99-127 | each refusal with its text; a 200 means that the row holds the new fields, with the old status when none is given, and that a changed model was initialised again |
| CommandProcessing.CommandProcessor.PrepareStart | src/DataTask.cpp:102-125 | a missing or offline device is refused with its text; an online one with points passes unchanged, one without is initialised first |
| ModelParser.IndentOf | src/model/ModelParser.cpp:17-26 | the number of leading spaces |
| ModelParser.FlushPoint | src/model/ModelParser.cpp:62-77 | the current item is completed and appended, or left when it has no name |
| ModelParser.ParseDataItems | src/model/ModelParser.cpp:54-123 | the line loop computes the fold of the line reader |
| ModelParser.EveryPointComplete | src/model/ModelParser.cpp:62-77 | every point of any text has item name, name path, item path and its device |
| ModelParser.ParseAppend | src/model/ModelParser.cpp:79-122 | parsing a text and then a component text is parsing both in turn |
| ModelParser.ParseNamesDevice | src/model/ModelParser.cpp:92-118 | a text gives all devices the same points, but for the device's name in front of each item path |
| ModelParser.ShapesShowName | src/model/ModelParser.cpp:99 | a model with items looks the same for two devices if and only if they have one name |
| ModelParser.PrintedModelParses | config/models/M1.yaml:14-37 | a printed model parses to one point per item, in order, each with its own unquoted name, last description and last path |
| JsonText.EscapeJson | src/util/JsonUtil.cpp:5-31 | the escaping loop computes the escaped text |
| JsonText.EscapedQuote | src/util/JsonUtil.cpp:9-14 | in escaped text every quote has a backslash before it |
| JsonText.ReadLiteral | src/command/CommandParser.cpp:19-37 | the literal loop: the value up to the closing quote, or nothing |
| JsonText.ReadEscaped | src/command/CommandParser.cpp:19-37 | reading an escaped string gives its letters and stops at its closing quote |
| JsonText.LettersExactly | src/command/CommandParser.cpp:22-31 | decoding restores a string if and only if it has no newline, return or tab |
| JsonText.ExtractStringField | src/task/CollectionResponseParser.cpp:55-87 | the field decoder shared by commands and responses, empty when missing or not closed |
| KeySearch.MatchEndsAtMimic | src/command/CommandParser.cpp:8-9 | every match of a quoted key closes on a string that is the key or ends with a quote and the key |
| KeySearch.MimicEndsMatch | src/command/CommandParser.cpp:8-9 | every such string does close a match |
| KeySearch.KeySearchExactly | src/command/CommandParser.cpp:8-9 | the search ends at the first such string, or finds nothing when there is none |
| FieldText.FieldDecoded | src/command/CommandParser.cpp:7-38 | the decoder returns the letters of the first string with a colon in front after that match |
| FieldText.NumberDecoded | src/task/CollectionResponseParser.cpp:104-123 | the text handed to stod is exactly the printed number |
| NumberText.TimeRead | src/task/CollectionResponseParser.cpp:121-126 | a time printed with six places is read back by stod to the microsecond |
| NumberText.DecimalTextRead | src/task/CollectionResponseParser.cpp:121-126 | stod on any decimal with sign, fraction and exponent: its digits scaled, or refused when out of range |
| CommandText.DecimalRead | src/command/CommandParser.cpp:58-59 | every 32-bit integer survives printing and stoi |
| CommandText.ToJson | src/command/CommandJsonSerializer.cpp:9-15 | the printed reply, piece by piece |
| CommandText.ReplyDecoded | src/command/CommandParser.cpp:7-60 | code, message and mid are found in every reply, whatever the message holds |
| CommandText.ReplyRoundTrip | src/command/CommandJsonSerializer.cpp:9-15 | a reply is recovered if and only if message and mid are on one line |
| CommandText.CommandEnvelope | src/http/HttpCommandAdapter.cpp:9-18 | the printed envelope, with and without a device name |
| CommandText.EnvelopeDecoded | src/CommandProcessor.cpp:26-45 | category, device name and mid are found in every envelope, names such as mid included |
| CommandText.EnvelopeRequests | src/CommandProcessor.cpp:26-55 | each of the eight categories asks for its own command, any other for none |
| HttpText.UrlDecode | src/http/HttpRouter.cpp:16-32 | the decoding loop, bad escapes copied, plus signs to blanks |
| HttpText.EncodedDecodes | src/http/HttpRouter.cpp:16-32 | any percent-encoding of any bytes, with digits of either case and plus signs for blanks, is undone |
| HttpText.LooseEscapes | src/http/HttpRouter.cpp:20-27 | an escape is also read with one digit before another character, or with a blank or sign before one digit |
| HttpText.BareSign | src/http/HttpRouter.cpp:20-29 | a percent sign that no number follows stays |
| HttpText.QueryParam | src/http/HttpRouter.cpp:39-59 | the parameter loop computes the value of the first matching parameter |
| HttpText.ParamOfTarget | src/http/HttpRouter.cpp:34-59 | on any list of parameters: the first that starts with the key, decoded, and nothing when none does |
| HttpText.EncodedParam | src/http/HttpRouter.cpp:39-59 | an encoded value comes back from among any other parameters |
| HttpText.TaskRoute | src/http/HttpRouter.cpp:133-140 | the two routes hand over a text that asks to start or stop the one named device, or all when no name is given, with the fixed mid |
| HttpText.StartNamedDevice | src/http/HttpRouter.cpp:133-136 | the route starts exactly the named device if and only if the name is on one line |
| HttpText.StopNamedDevice | src/http/HttpRouter.cpp:137-140 | the same for stopping |
| QueryText.BuildQuery | src/task/CollectionQueryBuilder.cpp:15-30 | the printed query; refuses an empty list |
| QueryText.ExtractQueryPaths | src/driver/MockDriverServer.cpp:77-123 | the bracket search and the string scan compute the list |
| QueryText.QueryReceived | src/driver/MockDriverServer.cpp:77-123 | for every cid and every list: the trimmed letters of the paths before the first with a closing bracket |
| QueryText.QueryRoundTrip | src/task/CollectionQueryBuilder.cpp:15-30 | the list survives if and only if every path is trimmed, on one line and without a closing bracket |
| QueryText.CidReceived | src/driver/MockDriverServer.cpp:247-250 | the cid is found in every query |
| MockDriver.ExtractStringField | src/driver/MockDriverServer.cpp:39-75 | the driver's field reader, which reads an unclosed literal to the end |
| MockDriver.OpenFieldClosed | src/driver/MockDriverServer.cpp:56-74 | it agrees with the service's decoder wherever that finds a value |
| MockDriver.HandleQuery | src/driver/MockDriverServer.cpp:246-275 | the printed answer to any message |
| MockDriver.MockSays | src/driver/MockDriverServer.cpp:133-151 | the value read from the answer is 1.2 for pressure, 2.0 for temperature, else 0, with the matching description |
| MockDriver.NameOfPath | src/driver/MockDriverServer.cpp:125-131 | the item's name is what follows the last slash, or the whole path |
| MockDriver.SilentQuery | src/driver/MockDriverServer.cpp:77-88 | no query key or no array gives no paths, and no cid gives mock-cid |
| SerialisedJson.ReplyIsJson | src/command/CommandJsonSerializer.cpp:9-15 | every reply is the JSON object of code, msg and mid |
| SerialisedJson.EnvelopeIsJson | src/http/HttpCommandAdapter.cpp:9-18 | every envelope is the JSON object of its head, its category and parameters, and its mid |
| SerialisedJson.QueryIsJson | src/task/CollectionQueryBuilder.cpp:20-29 | every query is the JSON object of its cid and the list of its paths |
| SerialisedJson.AnswerIsJson | src/driver/MockDriverServer.cpp:246-275 | every answer is the JSON object of the cid, the connection and one entry per path |
| BraceScan.ExtractObjectForPath | src/task/CollectionResponseParser.cpp:10-53 | key search, next brace, matching brace; empty when one is missing |
| BraceScan.MatchBraces | src/task/CollectionResponseParser.cpp:22-52 | the scanning loop computes the cut-out text |
| BraceScan.ObjectScanned | src/task/CollectionResponseParser.cpp:22-52 | for every nested object and every trailing text the scanner returns exactly the object |
| BraceScan.UnclosedObject | src/task/CollectionResponseParser.cpp:25-52 | an object without its closing brace is not returned in part |
| ResponseParser.ProcessResponse | src/task/CollectionResponseParser.cpp:145-189 | the loop computes the records of the points found, in order, and fails exactly when there are none |
| ResponseParser.ArrayDecoded | src/task/CollectionResponseParser.cpp:89-102 | the array decoder returns exactly the printed array |
| DriverAnswers.TextMember | src/task/CollectionResponseParser.cpp:55-87 | in any object the string decoder gives the member's letters, and nothing when it is missing |
| DriverAnswers.NumberMember | src/task/CollectionResponseParser.cpp:104-129 | the number decoder gives the member's text, and the fallback when it is missing |
| DriverAnswers.DecimalIsNumber | src/task/CollectionResponseParser.cpp:116-123 | the search for a number's end takes every decimal that stod reads as a whole, in every spelling of the exponent |
| DriverAnswers.ArrayMember | src/task/CollectionResponseParser.cpp:89-102 | the array decoder gives the member up to its first closing bracket, and nothing when it is missing |
| DriverAnswers.BoolMember | src/task/CollectionResponseParser.cpp:131-143 | after any blanks, true reads as true; another word or a missing member as false |
| DriverAnswers.EntryObject | src/task/CollectionResponseParser.cpp:10-53 | in any answer the object cut out for a path is that of its entry |
| DriverAnswers.NoEntry | src/task/CollectionResponseParser.cpp:10-20 | a path without an entry gets nothing |
| DriverAnswers.AnswerRecords | src/task/CollectionResponseParser.cpp:145-189 | one record per point with a value array, in order; own texts and the clock exactly where the answer's are missing, empty or refused; an exception when there is none |
| DriverAnswers.WithValueMembers | src/task/CollectionResponseParser.cpp:152-155 | a point leaves a record exactly when its path has an entry with a value array |
| DriverAnswers.BareRecord | src/task/CollectionResponseParser.cpp:164-177 | a concrete answer without names and times: the record has the point's own texts and the clock twice |
| CollectionRoundTrip.TwoSegments | src/model/ModelParser.cpp:98 | the paths the parser makes can be asked for, and their item name is the item's |
| CollectionRoundTrip.PathAt | src/task/CollectionResponseParser.cpp:11-12 | in an answer the search for a path ends at that path's own key |
| CollectionRoundTrip.ObjectForPath | src/task/CollectionResponseParser.cpp:10-53 | what is cut out for a path is that path's object |
| CollectionRoundTrip.ObjectReading | src/task/CollectionResponseParser.cpp:157-177 | the reading of such an object: value, times, item path, name and description |
| CollectionRoundTrip.ItemReading | src/task/CollectionResponseParser.cpp:157-177 | the reading of any text that opens with a path's item |
| CollectionRoundTrip.DataForPath | src/task/CollectionResponseParser.cpp:10-53 | for a path that is found in the cid the whole data object is cut out |
| CollectionRoundTrip.CidMimics | src/task/CollectionQueryBuilder.cpp:11-13 | when exactly a path is found in the cid made of a name and a clock |
| CollectionRoundTrip.ExchangeReadings | src/DataTask.cpp:206-227 | for every name and clock, one reading per point, in order: its own, or the first point's when its path is found in the cid |
| CollectionRoundTrip.EveryPointRead | src/DataTask.cpp:206-227 | all points get their own readings if and only if each path found in the cid names the first path's item |
| CollectionRoundTrip.MisledDevice | src/DataTask.cpp:206-227 | a device name and paths for which, at any clock, the second point gets the first one's reading |
| CollectionRoundTrip.UnstampedExchange | src/DataTask.cpp:206-227 | all points get their own readings at every name and clock when no path ends in a dash and digits |
| CollectionRoundTrip.SlashFreeExchange | src/task/CollectionQueryBuilder.cpp:11-13 | and at every clock when the device's name holds no slash |
| CollectionRoundTrip.RecordTimes | src/task/CollectionResponseParser.cpp:149-162 | the record's times are the driver's clock reading, not the fallback |
| CollectionRoundTrip.AnswerConnected | src/task/CollectionResponseParser.cpp:131-143 | the answer's machineConnected reads as true for every message |

## Left out

- CollectionRoundTrip.EveryPointRead: for pairwise distinct paths that the escaper copies unchanged, trimmed, without `]`, with a name after the last slash, and not starting with the mock's own item prefix; every path `/component/item` with plain segments is one (TwoSegments).
- CommandText.EnvelopeDecoded: asks that category and mid hold no quote and are not `mid` or `device_name`; the two routes only pass fixed words.
- CommandText.ReplyDecoded: asks that the code fits 32 bits, as the field that holds it does.
- DriverAnswers.AnswerRecords: asks that no other string in the answer can be taken for a point's path or for one of the six field names, and that a field that is present is of its own kind; how the collector misreads other texts is stated for the cid (CidMimics, DataForPath).
- OrderEffects.StopEndsDevice: asks for a registered run; after a refused duplicate start a stop returns at once and the worker goes on (DuplicateStartThenStopAll, UnreachableUntilItEnds).
- WorkerLoop.RowsStayBounded: asks that batches have at most p rows and nobody else inserts under the name.
- DeviceStore.CommandCoherentExactly: a command runs alone; the code reads the device and writes its points under two separate locks, so a concurrent command on the same device or a worker's own initialisation is not covered.
- The controller's start, stop, startAll and stopAll are modelled on values, as program positions between atomic steps, because workers move between the steps; the store they work on is a class, and its methods are proved against the functions the steps use.
- The device list that startAll reads and its check for offline devices: the names to start are the order's argument.
- Concurrent HTTP controllers: the protocol has one controller, as in console mode.
- Sockets, WebSocket and HTTP sessions, the driver client, logging, `main.cpp`, schema migration and the SQLite C API.
- The file search of the model repository: any lookup from model and version to text, one failure message.
- Reads that fail: the code takes a failed step of a query for the end of its rows, so a device may look missing.
- Rounding of decimal text to doubles, and the subnormal doubles, which are taken as out of range.
- The fields of `parseDeviceUpsert` and `parseAddr`: the handlers take the parsed record. The printers of status, device and resource lists, and the other HTTP routes.
- DevFunc sections after a DataItem list, which the parser counts as items, are not part of the printed models.
- Rows are compared by (SvrTime, Id) with times as reals, so not-a-number times are not covered.
