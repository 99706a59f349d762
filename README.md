# Task manager core in Dafny

This project models the core of a task-manager application. The backend is a Spring service. It stores tasks and can soft-delete and restore them. A completed recurring task spawns its next instance. Tasks are ordered on a Kanban board. Failures turn into JSON error responses. The frontend is a React client. It loads the task list page by page, deletes with an Undo notice, and moves cards between Kanban columns. It also derives views from the list: the calendar, the health widget, today's deadlines, the filtered tables and the task form.

The model follows the program's structure, one module per source unit:

- `TaskEntity` (`task_entity.dfy`): the entity's fields as a `TaskState` value. Class `Task` holds them and updates them in place through `PrePersist` and `MarkAsCompleted`. Each method is specified by a function, `PrePersisted` and `MarkedCompleted`.
- `TaskMapper` (`task_mapper.dfy`): the mapper between the entity and the request and response records. Its `UpdateEntity` method changes a `Task` object in place.
- `RecurrenceService` (`recurrence.dfy`): the next deadline of a recurring task, and whether a follow-up may be created.
- `ServiceRules` (`service_rules.dfy`): the private helpers of the task service. These are status parsing, normalisation of legacy statuses, recurrence defaults and validation, the DONE lock, the active-task lookup, the next board order, and sort sanitising.
- `TaskService` (`task_service.dfy`): one function per service operation. Each function gives the new repository contents and the result, or the exception. Class `TaskServiceImpl` owns the repository as a `map` from id to row, plus the next id. Its methods commit exactly what the matching function describes. On an exception they leave the repository as it was, which is how `@Transactional` rolls back. `AssignBoardOrders` is the `for` loop of `reorderBoard`.
- `ServiceProperties` (`service_properties.dfy`): lemmas about the service operations.
- `Exceptions` and `ExceptionHandler` (`exceptions.dfy`, `exception_handler.dfy`): the exceptions and the global handler that turns them into responses. This includes the keyword rewriting of `IllegalArgumentException` messages.
- `PagedLoader` (`paged_loader.dfy`): the page loop shared by `useTasks` and `useDeletedTasks`. Class `TaskLoader` holds the hook state: the list, the loading flag, the fetch version, and the published lists and notices. `Fetch` runs the loop and is proved equal to the function `Fetched`. Every server reply is an input, and so is the moment a newer call supersedes the running one.
- `UndoDelete` (`undo_delete.dfy`): the `useUndoDelete` engine, as class `UndoDeleteEngine` over the pending-id set and the effects it issues.
- `TaskList` (`task_list.dfy`): the `useTasks` handlers, as class `TaskListHook` over the list and the form state.
- `KanbanPage` (`kanban.dfy`): the status mapping, comparators, filter, columns and the drag-and-drop move. `BoardColumns` is a method. Class `KanbanBoard` holds the drag state.
- `Deadlines`, `TaskCalendar`, `TaskHealth`, `TodayDeadlines`, `DeletedTasksView`, `TaskTableView`, `TaskForm`, `TasksPage` (`deadlines.dfy`, `calendar.dfy`, `health.dfy`, `today.dfy`, `deleted_page.dfy`, `task_table.dfy`, `task_form.dfy`, `tasks_page.dfy`): the widgets and pages, mostly as pure functions. `TasksByDate` is a method with forEach loops, and class `CalendarWheel` holds the wheel refs.
- `Wrappers`, `Text`, `Time`, `JsArray`, `ClientTypes` (`wrappers.dfy`, `text.dfy`, `time.dfy`, `js_array.dfy`, `client_types.dfy`): the shared parts. These are Option and Result, Java and JavaScript string operations, dayjs day boundaries over millisecond timestamps, `Array.filter`, `find` and `sort` as a stable insertion sort, and the client's task record.

Modelling choices:

- Statuses. The model uses five statuses: `PENDING`, `COMPLETED`, `TODO`, `IN_PROGRESS` and `DONE`. The task service, the mapper and the Kanban page all use the last three. Task.java as shipped declares only `PENDING` and `COMPLETED`, and it has no board-order or recurrence fields. The model follows the code that uses these values, not that declaration. On the client, status and priority stay raw optional strings, because that is how the TypeScript compares them.
- Time. Time is an integer count of milliseconds of local date-time. A day is `ms / 86400000`. Day 0 is a Thursday, so weeks start on `(day + 4) % 7 == 0`, a Sunday, as in dayjs's default locale.
- External helpers. The service runs with an environment of parameters: the clock, a UUID, month arithmetic, the safe priority and status setters of the mapper, and the deadline validator `updateDeadline`. Each helper may fail, and the model follows each failure.
- Board order. `nextBoardOrder` reads the top row of a query that sorts by board order descending. MySQL puts NULL last in that order. So the next order is one more than the largest non-null board order of the active rows in the column, and 1 when there is none. The entity being updated is managed, and Hibernate flushes it before the query runs. So in `updateTask`, `updateTaskStatus` and `restoreTask` the next order is computed over the repository with that row already changed.

## Model

| member | source | states |
|---|---|---|
| TaskEntity.KanbanAlias | task/src/main/java/com/decena/task/Service/ServiceImpl/TaskServiceImpl.java:299-304 | the legacy names are mapped (PENDING to TODO, COMPLETED to DONE), so the result is never a legacy name; any other name is kept |
| TaskEntity.StatusValueOf | task/src/main/java/com/decena/task/Entity/Task.java:120-123 | Status.valueOf accepts exactly the name of a constant, case-sensitively, and otherwise throws "No enum constant ...Status.<name>" |
| TaskEntity.PriorityValueOf | task/src/main/java/com/decena/task/Entity/Task.java:111-115 | Priority.valueOf accepts exactly HIGH, MODERATE or LOW and otherwise throws the no-enum-constant message |
| TaskEntity.RecurrenceTypeValueOf | task/src/main/java/com/decena/task/Mapper/TaskMapper.java:141-144 | RecurrenceType.valueOf accepts exactly a constant name and otherwise throws the no-enum-constant message |
| TaskEntity.PrePersisted | task/src/main/java/com/decena/task/Entity/Task.java:89-94 | prePersist sets dateCreated to now, status to PENDING and priority to LOW only when each is null, always clears deleted, and changes nothing else |
| TaskEntity.PrePersistIdempotent | task/src/main/java/com/decena/task/Entity/Task.java:89-94 | a second prePersist changes nothing, whatever the clock says then |
| TaskEntity.MarkedCompleted | task/src/main/java/com/decena/task/Entity/Task.java:101-106 | markAsCompleted throws TaskAlreadyCompletedException exactly when the status is COMPLETED; otherwise it sets COMPLETED and changes no other field |
| TaskEntity.Task.PrePersist | task/src/main/java/com/decena/task/Entity/Task.java:89-94 | the prePersist callback assigns the entity fields in place so that the new state is PrePersisted of the old one |
| TaskEntity.Task.MarkAsCompleted | task/src/main/java/com/decena/task/Entity/Task.java:101-106 | on a COMPLETED entity it returns the exception and leaves the object unchanged; otherwise the new state is MarkedCompleted of the old one |
| TaskMapper.NormalizeStatus | task/src/main/java/com/decena/task/Mapper/TaskMapper.java:152-163 | null stays null; PENDING becomes "TODO", COMPLETED becomes "DONE", every other status keeps its name, so a legacy name is never emitted |
| TaskMapper.ToResponse | task/src/main/java/com/decena/task/Mapper/TaskMapper.java:18-35 | null gives null; otherwise id, title, description, boardOrder, deadline, dateCreated and the recurrence fields are copied, priority and recurrence type leave as names or null, and the status is normalised |
| TaskMapper.ResponseStatusNeverLegacy | task/src/main/java/com/decena/task/Mapper/TaskMapper.java:26 | no response carries PENDING or COMPLETED as its status |
| TaskMapper.ConvertPriority | task/src/main/java/com/decena/task/Mapper/TaskMapper.java:111-114 | null gives null; otherwise it succeeds exactly when the upper-cased value names a priority, and then yields that priority |
| TaskMapper.ConvertStatus | task/src/main/java/com/decena/task/Mapper/TaskMapper.java:123-132 | null gives null; otherwise it succeeds exactly when the upper-cased value is one of the five names, maps the legacy names to TODO and DONE, and never yields a legacy status |
| TaskMapper.ConvertRecurrenceType | task/src/main/java/com/decena/task/Mapper/TaskMapper.java:141-144 | null or blank input gives NONE; otherwise the upper-cased value must name a recurrence type |
| TaskMapper.ToEntity | task/src/main/java/com/decena/task/Mapper/TaskMapper.java:45-63 | null gives null; otherwise a new entity with id null, not deleted, holding the request title, description, deadline, board order and recurrence fields, with priority and status from the safe setters; a rejected conversion is reported |
| TaskMapper.UpdatedEntity | task/src/main/java/com/decena/task/Mapper/TaskMapper.java:72-102 | it succeeds exactly when every present enum value converts; only the fields the request carries are replaced, recurrenceEndAt is always overwritten, and priority, status and recurrence type take their converted values |
| TaskMapper.EmptyRequestClearsOnlyEndDate | task/src/main/java/com/decena/task/Mapper/TaskMapper.java:98 | a request with every field null changes nothing except clearing the recurrence end date |
| TaskMapper.UpdateIdempotent | task/src/main/java/com/decena/task/Mapper/TaskMapper.java:72-102 | applying the same request twice gives the same entity as applying it once |
| TaskMapper.UpdateEntity | task/src/main/java/com/decena/task/Mapper/TaskMapper.java:72-102 | updateEntity changes the passed Task in place to exactly UpdatedEntity of its old state, or reports the conversion error |
| TaskMapper.CopyFields | task/src/main/java/com/decena/task/Mapper/TaskMapper.java:74-100 | the field-by-field setter calls leave the entity as the overlay of the requests non-null values and its end date |
| RecurrenceService.SafeInterval | task/src/main/java/com/decena/task/Service/ServiceImpl/RecurrenceService.java:32 | Math.max(interval, 1) is at least 1 and keeps any interval that is already at least 1 |
| RecurrenceService.ComputeNextDeadline | task/src/main/java/com/decena/task/Service/ServiceImpl/RecurrenceService.java:23-39 | null for no deadline, no type or NONE; otherwise the deadline plus the safe interval in days, weeks or months |
| RecurrenceService.IntervalBelowOneIsOne | task/src/main/java/com/decena/task/Service/ServiceImpl/RecurrenceService.java:32 | an interval below 1 gives the same next deadline as 1 |
| RecurrenceService.DailyWeeklyMoveForward | task/src/main/java/com/decena/task/Service/ServiceImpl/RecurrenceService.java:32-35 | DAILY and WEEKLY always give a next deadline strictly after the current one, by a whole number of days |
| RecurrenceService.CanCreateNext | task/src/main/java/com/decena/task/Service/ServiceImpl/RecurrenceService.java:48-59 | true exactly when the task and the next deadline exist, the type is not null or NONE, and there is no end date or the next deadline is not after it (an inclusive end) |
| ExceptionHandler.BuildResponse | task/src/main/java/com/decena/task/Exception/GlobalExceptionHandler.java:69-81 | the response status and the body's "status" are the code of the HTTP status; "error" and "message" are the given strings |
| ExceptionHandler.RewriteMessage | task/src/main/java/com/decena/task/Exception/GlobalExceptionHandler.java:83-94 | null is kept; a message that contains "priority" becomes the priority text, else one that contains "status" the status text, else one that contains "RecurrenceType" the recurrence text; any other message is kept |
| ExceptionHandler.FixedTextKeywords | task/src/main/java/com/decena/task/Exception/GlobalExceptionHandler.java:86-92 | the priority text contains "priority"; the status text contains "status" but not "priority"; the recurrence text contains none of the three keywords |
| ExceptionHandler.RewriteIdempotent | task/src/main/java/com/decena/task/Exception/GlobalExceptionHandler.java:83-94 | rewriting an already rewritten message changes nothing |
| ExceptionHandler.ErrorsMapLastWins | task/src/main/java/com/decena/task/Exception/GlobalExceptionHandler.java:49-52 | every rejected field is a key of the error map, and its value is the message of the last error reported on that field |
| ExceptionHandler.CollectFieldErrors | task/src/main/java/com/decena/task/Exception/GlobalExceptionHandler.java:47-60 | the forEach(put) loop builds exactly the error map |
| ExceptionHandler.Handle | task/src/main/java/com/decena/task/Exception/GlobalExceptionHandler.java:26-134 | every handler's response status equals the body's "status", and only a validation failure carries an "errors" map instead of a "message" |
| ExceptionHandler.ServiceExceptionResponses | task/src/main/java/com/decena/task/Exception/GlobalExceptionHandler.java:33-36 | TaskAlreadyDeleted gives 200 "Success", ResourceNotFound 404 "Not Found", TaskAlreadyCompleted 400 "Business Rule Violation", each with its own message; IllegalArgument gives 400 "Invalid Request" |
| ExceptionHandler.MalformedJsonIgnoresDetail | task/src/main/java/com/decena/task/Exception/GlobalExceptionHandler.java:41-44 | malformed JSON gives 400 and the same fixed message whatever the parser reported |
| ExceptionHandler.ValidationResponse | task/src/main/java/com/decena/task/Exception/GlobalExceptionHandler.java:47-60 | validation failures give 400 "Validation Failed" with the field-to-message map |
| ExceptionHandler.StatusRequiredKept | task/src/main/java/com/decena/task/Service/ServiceImpl/TaskServiceImpl.java:296 | "Status is required" contains none of the keywords (the test is case-sensitive), so it reaches the client unchanged |
| ExceptionHandler.ColumnMismatchReplaced | task/src/main/java/com/decena/task/Service/ServiceImpl/TaskServiceImpl.java:271-276 | the column-mismatch message of reorderBoard contains "status" and is replaced by the fixed status text |
| ExceptionHandler.UnknownEnumMessages | task/src/main/java/com/decena/task/Exception/GlobalExceptionHandler.java:86-92 | for an upper-cased rejected name, the Priority and Status no-enum-constant messages are kept while the RecurrenceType one is replaced by the recurrence text |
| ExceptionHandler.NoKeywordsAfter | task/src/main/java/com/decena/task/Exception/GlobalExceptionHandler.java:86-92 | a no-enum-constant message for an upper-cased name never contains "priority" or "status", and contains "RecurrenceType" only for that enum |
| ServiceRules.ParseStatus | task/src/main/java/com/decena/task/Service/ServiceImpl/TaskServiceImpl.java:294-306 | null or blank is "Status is required"; otherwise the upper-cased value with the legacy names mapped must name a constant; the result is always TODO, IN_PROGRESS or DONE, and an unknown name gives the valueOf error |
| ServiceRules.ParseStatusErrorsReportedVerbatim | task/src/main/java/com/decena/task/Service/ServiceImpl/TaskServiceImpl.java:294-306 | both errors parseStatus throws pass the exception handler with their message unchanged |
| ServiceRules.NormalizeLegacyStatus | task/src/main/java/com/decena/task/Service/ServiceImpl/TaskServiceImpl.java:325-331 | PENDING becomes TODO and COMPLETED becomes DONE, any other task is unchanged, and no other field changes |
| ServiceRules.NormalizeAgreesWithResponse | task/src/main/java/com/decena/task/Service/ServiceImpl/TaskServiceImpl.java:325-331 | normalising in memory never changes the status the API reports, and normalising twice is normalising once |
| ServiceRules.NormalizeRecurrenceDefaults | task/src/main/java/com/decena/task/Service/ServiceImpl/TaskServiceImpl.java:338-345 | a null type becomes NONE, a null or non-positive interval becomes 1, and nothing else changes |
| ServiceRules.ValidateRecurrence | task/src/main/java/com/decena/task/Service/ServiceImpl/TaskServiceImpl.java:353-366 | it passes exactly for a valid recurrence; an interval below 1, a recurring task without a deadline, and an end date before the deadline are each refused with their own message |
| ServiceRules.DefaultsSatisfyIntervalCheck | task/src/main/java/com/decena/task/Service/ServiceImpl/TaskServiceImpl.java:338-366 | once the recurrence defaults are applied the interval check can no longer fail |
| ServiceRules.EnforceDoneStatusLock | task/src/main/java/com/decena/task/Service/ServiceImpl/TaskServiceImpl.java:422-429 | it throws exactly when a status is requested, the previous status is DONE and the requested one is not DONE; no request always passes |
| ServiceRules.FindActiveTask | task/src/main/java/com/decena/task/Service/ServiceImpl/TaskServiceImpl.java:212-218 | it succeeds exactly for an existing row that is not soft-deleted, returns it with its legacy status normalised, and otherwise throws "Task not found with id: <id>" |
| ServiceRules.NextBoardOrder | task/src/main/java/com/decena/task/Service/ServiceImpl/TaskServiceImpl.java:314-318 | 1 for a column with no board orders; otherwise one more than the largest board order of an active row of that status, so above every such order |
| ServiceRules.NextBoardOrderIgnoresOthers | task/src/main/java/com/decena/task/Service/ServiceImpl/TaskServiceImpl.java:314-318 | adding a soft-deleted row or a row of another column never changes the next order |
| ServiceRules.NextBoardOrderAppends | task/src/main/java/com/decena/task/Service/ServiceImpl/TaskServiceImpl.java:314-318 | in a column whose orders are positive, the next order is at least 2 and above every card of the column |
| ServiceRules.SanitizeSort | task/src/main/java/com/decena/task/Service/ServiceImpl/TaskServiceImpl.java:77-84 | the sort field is one of deadline, priority, status or dateCreated: the requested one when allowed, dateCreated otherwise; the direction is ASC exactly when sortDir equals "asc" ignoring case |
| TaskService.RequestedStatus | task/src/main/java/com/decena/task/Service/ServiceImpl/TaskServiceImpl.java:112 | an absent status stays absent; a present one must parse, and then yields the parsed status |
| TaskService.Deleted | task/src/main/java/com/decena/task/Service/ServiceImpl/TaskServiceImpl.java:136-146 | a missing id is not found, an already deleted task raises TaskAlreadyDeleted, and otherwise only the row's deleted flag becomes true |
| TaskService.Restored | task/src/main/java/com/decena/task/Service/ServiceImpl/TaskServiceImpl.java:157-173 | a missing id is not found, an active task is refused with "Task is not deleted", and any deleted task is restored |
| TaskService.StatusUpdated | task/src/main/java/com/decena/task/Service/ServiceImpl/TaskServiceImpl.java:230-246 | a Kanban move succeeds exactly when the task is active, the status parses and the DONE lock lets it through |
| TaskService.UniqueSizeIffNoDuplicates | task/src/main/java/com/decena/task/Service/ServiceImpl/TaskServiceImpl.java:260-263 | the HashSet of the ids is as large as the list exactly when the list has no duplicates |
| TaskService.CountActiveIffAll | task/src/main/java/com/decena/task/Service/ServiceImpl/TaskServiceImpl.java:266-269 | the count of known, active ids equals the list length exactly when every listed id names an active task |
| TaskService.IndexOf | task/src/main/java/com/decena/task/Service/ServiceImpl/TaskServiceImpl.java:278-283 | the position of an id is its first occurrence in the list |
| TaskService.ReassignedStep | task/src/main/java/com/decena/task/Service/ServiceImpl/TaskServiceImpl.java:278-283 | one pass of the for-loop gives the next listed task the next order on its normalised row |
| TaskService.AssignBoardOrders | task/src/main/java/com/decena/task/Service/ServiceImpl/TaskServiceImpl.java:278-283 | the for-loop with order++ gives the listed tasks the orders 1..n in list order, each on its normalised row, and leaves the others |
| TaskService.TaskServiceImpl.CreateTask | task/src/main/java/com/decena/task/Service/ServiceImpl/TaskServiceImpl.java:46-64 | createTask commits exactly the store of Created, or leaves the repository unchanged and returns the exception |
| TaskService.TaskServiceImpl.UpdateTask | task/src/main/java/com/decena/task/Service/ServiceImpl/TaskServiceImpl.java:107-128 | updateTask commits exactly the store of Updated, or rolls back and returns the exception |
| TaskService.TaskServiceImpl.DeleteTask | task/src/main/java/com/decena/task/Service/ServiceImpl/TaskServiceImpl.java:136-146 | deleteTask commits exactly the store of Deleted, or rolls back and returns the exception |
| TaskService.TaskServiceImpl.RestoreTask | task/src/main/java/com/decena/task/Service/ServiceImpl/TaskServiceImpl.java:157-173 | restoreTask commits exactly the store of Restored, or rolls back and returns the exception |
| TaskService.TaskServiceImpl.MarkTaskAsCompleted | task/src/main/java/com/decena/task/Service/ServiceImpl/TaskServiceImpl.java:182-188 | markTaskAsCompleted commits exactly the store of Completed, or rolls back and returns the exception |
| TaskService.TaskServiceImpl.MarkTaskAsCompletedOnce | task/src/main/java/com/decena/task/Entity/Task.java:101-104 | the corrected completion refuses a task that is already DONE with TaskAlreadyCompleted and otherwise commits what markTaskAsCompleted commits, exactly as CompletedOnce says |
| TaskService.TaskServiceImpl.CompleteFound | task/src/main/java/com/decena/task/Service/ServiceImpl/TaskServiceImpl.java:184-187 | marking the found entity, saving it and spawning the follow-up commit CompletedFound; a failure restores the store as it was |
| TaskService.TaskServiceImpl.MaybeCreateNextRecurringTask | task/src/main/java/com/decena/task/Service/ServiceImpl/TaskServiceImpl.java:373-413 | the repository afterwards is the first part of SpawnNext and the returned row its second part, or the error it reports |
| TaskService.TaskServiceImpl.UpdateTaskStatus | task/src/main/java/com/decena/task/Service/ServiceImpl/TaskServiceImpl.java:230-246 | updateTaskStatus commits exactly the store of StatusUpdated, or rolls back and returns the exception |
| TaskService.TaskServiceImpl.ReorderBoard | task/src/main/java/com/decena/task/Service/ServiceImpl/TaskServiceImpl.java:255-285 | reorderBoard commits exactly the store of Reordered, or rolls back and returns the exception |
| ServiceProperties.CreateDefaults | task/src/main/java/com/decena/task/Service/ServiceImpl/TaskServiceImpl.java:46-64 | a created task is a new row at the next id and nothing else changes; it is active, created now, holds the request's title and description, takes TODO and LOW when the safe setters give none, the converted recurrence type (NONE when absent or blank), the sent interval when at least 1 and 1 otherwise, and goes to the end of its column unless an order was sent; the response is that row mapped |
| ServiceProperties.CreateRecurringNeedsDeadline | task/src/main/java/com/decena/task/Service/ServiceImpl/TaskServiceImpl.java:353-366 | a recurring create request that succeeds carried a deadline and an end date, if any, not before it (the stored deadline is what updateDeadline makes of it afterwards) |
| ServiceProperties.CreateRejectsBadRecurrence | task/src/main/java/com/decena/task/Service/ServiceImpl/TaskServiceImpl.java:353-366 | a recurring create request without a deadline, or with an end date before it, is refused with the matching message |
| ServiceProperties.CreatePreservesValidStore | task/src/main/java/com/decena/task/Service/ServiceImpl/TaskServiceImpl.java:46-64 | createTask keeps every row keyed by its own id and below the next id |
| ServiceProperties.UpdateDoneLock | task/src/main/java/com/decena/task/Service/ServiceImpl/TaskServiceImpl.java:116 | updateTask on a DONE task that asks for a different, parsable status is refused with the lock message |
| ServiceProperties.UpdateWithoutStatusNeverLocked | task/src/main/java/com/decena/task/Service/ServiceImpl/TaskServiceImpl.java:422-429 | an update that sends no status is never refused by the DONE lock |
| ServiceProperties.UpdateBoardOrderRule | task/src/main/java/com/decena/task/Service/ServiceImpl/TaskServiceImpl.java:119-121 | after updateTask the row goes to the end of its column exactly when a status was sent, it differs from the previous one and no order was sent; otherwise its order is the sent one or the old one |
| ServiceProperties.UpdateTouchesOnlyItsRow | task/src/main/java/com/decena/task/Service/ServiceImpl/TaskServiceImpl.java:107-128 | updateTask writes only its own row and keeps its id, creation time and active flag, and its status is never a legacy one |
| ServiceProperties.DeleteTwiceReported | task/src/main/java/com/decena/task/Service/ServiceImpl/TaskServiceImpl.java:140-142 | deleting the same task again is reported as already deleted |
| ServiceProperties.DeleteThenRestore | task/src/main/java/com/decena/task/Service/ServiceImpl/TaskServiceImpl.java:136-173 | restoring a task just deleted brings the row back active with its legacy status normalised; its order is kept when it had one and filled in otherwise |
| ServiceProperties.RestoreContract | task/src/main/java/com/decena/task/Service/ServiceImpl/TaskServiceImpl.java:157-173 | a restored row was deleted and is now active, normalised and placed; only deleted, a legacy status and a missing order change, and no other row changes |
| ServiceProperties.DeletePreservesValidStore | task/src/main/java/com/decena/task/Service/ServiceImpl/TaskServiceImpl.java:136-146 | deleteTask keeps the store valid |
| ServiceProperties.RestorePreservesValidStore | task/src/main/java/com/decena/task/Service/ServiceImpl/TaskServiceImpl.java:157-173 | restoreTask keeps the store valid |
| ServiceProperties.StatusMoveDoneLock | task/src/main/java/com/decena/task/Service/ServiceImpl/TaskServiceImpl.java:235 | a Kanban move of a DONE task succeeds exactly when it asks for DONE, and is otherwise refused with the lock message |
| ServiceProperties.StatusMoveBoardOrder | task/src/main/java/com/decena/task/Service/ServiceImpl/TaskServiceImpl.java:238-242 | a Kanban move sets the parsed status and keeps a requested order only when it is positive; otherwise the card goes after every other card of the target column |
| ServiceProperties.ReorderAcceptsExactly | task/src/main/java/com/decena/task/Service/ServiceImpl/TaskServiceImpl.java:255-285 | reorderBoard accepts exactly a non-empty list without duplicates, with a parsable status, of active tasks that all belong to that column; each rejection has its own message, in the order of the checks |
| ServiceProperties.ReorderAssignsPositions | task/src/main/java/com/decena/task/Service/ServiceImpl/TaskServiceImpl.java:278-283 | an accepted reorder gives the i-th listed task the order i+1 on its normalised row, and leaves every other row and the next id unchanged |
| ServiceProperties.ReassignedPositions | task/src/main/java/com/decena/task/Service/ServiceImpl/TaskServiceImpl.java:278-283 | after the loop the i-th listed id holds order i+1, the rows not listed are unchanged, and no row is added or lost |
| ServiceProperties.ReorderPreservesValidStore | task/src/main/java/com/decena/task/Service/ServiceImpl/TaskServiceImpl.java:255-285 | reorderBoard keeps the store valid |
| ServiceProperties.CompletionSpawnsAtMostOne | task/src/main/java/com/decena/task/Service/ServiceImpl/TaskServiceImpl.java:373-413 | completion marks the row COMPLETED and adds one row, at the next id, exactly when the task recurs and canCreateNext holds, and none otherwise; no other row changes |
| ServiceProperties.FollowUpInstance | task/src/main/java/com/decena/task/Service/ServiceImpl/TaskServiceImpl.java:373-413 | the follow-up is an active TODO row at the end of the TODO column, created now, copying title, description, priority and recurrence, and sharing the group id saved on the original: the old one, or "rec-" and a fresh UUID when it was blank |
| ServiceProperties.CompletePreservesValidStore | task/src/main/java/com/decena/task/Service/ServiceImpl/TaskServiceImpl.java:182-188 | markTaskAsCompleted keeps the store valid |
| ServiceProperties.LookupHidesCompletedStatus | task/src/main/java/com/decena/task/Service/ServiceImpl/TaskServiceImpl.java:183-186 | after findActiveTask normalised the status, markAsCompleted can never throw TaskAlreadyCompleted |
| ServiceProperties.RecompletionSpawnsAgain | task/src/main/java/com/decena/task/Service/ServiceImpl/TaskServiceImpl.java:182-188 | completing an already completed daily task succeeds and adds a second follow-up |
| ServiceProperties.CompletedOnceRefusesRecompletion | task/src/main/java/com/decena/task/Entity/Task.java:101-104 | with the intended guard, a task completed once cannot be completed again |
| ServiceProperties.CompletedOnceAgreesOtherwise | task/src/main/java/com/decena/task/Service/ServiceImpl/TaskServiceImpl.java:182-188 | on a task not yet completed, the corrected completion does exactly what the service does |
| KanbanPage.ToKanbanStatus | frontend/src/pages/tasks/KanbanPage.tsx:40-45 | COMPLETED and DONE show as Done, IN_PROGRESS as In Progress, and everything else, an unknown or missing status included, as Todo |
| KanbanPage.ToKanbanStatusIdempotent | frontend/src/pages/tasks/KanbanPage.tsx:40-45 | mapping a column name again gives the same column |
| KanbanPage.SortByBoardOrder | frontend/src/pages/tasks/KanbanPage.tsx:54-59 | two cards compare equal exactly when their order keys and ids are equal |
| KanbanPage.BoardOrderMissingLast | frontend/src/pages/tasks/KanbanPage.tsx:55-57 | a card with a board order below MAX_SAFE_INTEGER sorts before a card without one |
| KanbanPage.BoardOrderTiesById | frontend/src/pages/tasks/KanbanPage.tsx:58 | cards with the same board order are ordered by id ascending |
| KanbanPage.CompareByFieldIsLexicographic | frontend/src/pages/tasks/KanbanPage.tsx:61-96 | every field compares by its own key, then board order, then id |
| KanbanPage.DirectedConsistent | frontend/src/pages/tasks/KanbanPage.tsx:162-165 | each field in either direction gives a consistent comparator (antisymmetric and transitive), so the column sort is well defined |
| KanbanPage.MissingFieldSortsLast | frontend/src/pages/tasks/KanbanPage.tsx:65-82 | a missing deadline, priority or creation time sorts after a present one |
| KanbanPage.RankOrders | frontend/src/pages/tasks/KanbanPage.tsx:71-89 | priority sorts LOW before MODERATE before HIGH, and status sorts Todo before In Progress before Done |
| KanbanPage.FieldTieFallsBack | frontend/src/pages/tasks/KanbanPage.tsx:68-95 | when a field's keys tie the comparison falls back to sortByBoardOrder |
| KanbanPage.DescendingReversesTiebreak | frontend/src/pages/tasks/KanbanPage.tsx:162-165 | descending order negates the whole comparator, the id tiebreak included |
| KanbanPage.PassesIff | frontend/src/pages/tasks/KanbanPage.tsx:137-148 | a card passes exactly when the keyword occurs in its search blob, its normalised status is the selected one, and, with a quick window, its deadline lies between now and the end of that window |
| KanbanPage.FilteredTasksExact | frontend/src/pages/tasks/KanbanPage.tsx:129-149 | the visible cards are exactly the passing ones, in their original order |
| KanbanPage.ColumnsPartition | frontend/src/pages/tasks/KanbanPage.tsx:158-160 | every card lands in exactly one column, that of its normalised status: the three columns together are the input as a multiset |
| KanbanPage.ColumnStep | frontend/src/pages/tasks/KanbanPage.tsx:159 | pushing a card extends its own column only |
| KanbanPage.BoardColumns | frontend/src/pages/tasks/KanbanPage.tsx:151-172 | each column holds the visible cards of its status sorted by the chosen comparator, and the columns together hold exactly the visible cards |
| KanbanPage.SortedColumns | frontend/src/pages/tasks/KanbanPage.tsx:167-169 | every column holds only cards of its status, sorted by the board comparator, and no card is lost or added |
| KanbanPage.MovePlanShape | frontend/src/pages/tasks/KanbanPage.tsx:206-228 | a move issues the status patch, then the target reorder, then the source reorder only when the columns differ and the source keeps cards, then the refresh |
| KanbanPage.MoveIgnored | frontend/src/pages/tasks/KanbanPage.tsx:191 | with no dragged card, or a move in flight, a drop changes nothing |
| KanbanPage.MoveOfMissingTask | frontend/src/pages/tasks/KanbanPage.tsx:198-199 | a dragged id missing from the list leaves everything, the drag state included, as it was |
| KanbanPage.MoveOfDoneTask | frontend/src/pages/tasks/KanbanPage.tsx:200-204 | dropping a Done card issues no call and only clears the drag state |
| KanbanPage.MoveIssuesPlan | frontend/src/pages/tasks/KanbanPage.tsx:206-243 | the calls issued are the plan up to and including the first rejected one, exactly one toast is shown, and the moving and drag state end cleared |
| KanbanPage.SameColumnMoveAppends | frontend/src/pages/tasks/KanbanPage.tsx:207-208 | in a same-column move the moved card comes last and appears once |
| KanbanPage.KanbanBoard.StartDrag | frontend/src/pages/tasks/KanbanPage.tsx:360-364 | onDragStart records the dragged card and its column, and nothing for a Done card |
| KanbanPage.KanbanBoard.MoveTaskToColumn | frontend/src/pages/tasks/KanbanPage.tsx:190-244 | moveTaskToColumn changes the page state to exactly MoveStep of the old state |
| KanbanPage.KanbanBoard.PersistMove | frontend/src/pages/tasks/KanbanPage.tsx:212-243 | the try/catch/finally runs the awaited calls in order, shows one toast and clears the state, as MoveCommitted says |
| PagedLoader.Request | frontend/src/hooks/tasks/useTasks.ts:54-77 | every page request has the page index and size 100 |
| PagedLoader.FullPageStep | frontend/src/hooks/tasks/useTasks.ts:70-91 | a full page that arrives while the call is current adds its rows and goes on to the next page |
| PagedLoader.Requests | frontend/src/hooks/tasks/useTasks.ts:70-77 | the requests of a run are those of consecutive pages |
| PagedLoader.FullPagesReach | frontend/src/hooks/tasks/useTasks.ts:70-91 | while pages arrive full and the call stays current, it walks through the pages in order, accumulating their rows |
| PagedLoader.FirstPageFull | frontend/src/hooks/tasks/useTasks.ts:54-68 | a full first page is shown and the loop starts at page 1 |
| PagedLoader.EndsAt | frontend/src/hooks/tasks/useTasks.ts:70-91 | after full pages the call ends with what the pass that stops the loop leaves |
| PagedLoader.FirstPageShort | frontend/src/hooks/tasks/useTasks.ts:54-68 | a call whose first page is short stops there and shows that page |
| PagedLoader.ShortFinalPageShowsAll | frontend/src/hooks/tasks/useTasks.ts:85-89 | a short, non-empty page after full pages ends the loop and shows every row fetched |
| PagedLoader.EmptyFinalPageAsWritten | frontend/src/hooks/tasks/useTasks.ts:80-87 | an empty page after full pages ends the loop showing only the rows up to the last even page; when the last full page is odd, its 100 rows are not shown |
| PagedLoader.OddLastPageHidden | frontend/src/hooks/tasks/useTasks.ts:85-87 | when the last full page has an odd index, the list shown lacks exactly that page's rows |
| PagedLoader.FourHundredRowsShowOnlyThreeHundred | frontend/src/hooks/tasks/useTasks.ts:80-87 | with exactly 400 rows (four full pages, then an empty one) only the first 300 are ever shown |
| PagedLoader.EmptyFinalPageCorrected | frontend/src/hooks/tasks/useTasks.ts:80 | with the rows also shown at the empty-page break, every fetched row is shown |
| PagedLoader.StopsAfterMaxPages | frontend/src/hooks/tasks/useTasks.ts:70-71 | after page 1000 the loop stops even when every page was full, and all rows are shown |
| PagedLoader.CorrectedShowsAllRows | frontend/src/hooks/tasks/useTasks.ts:70-91 | the corrected loop always ends showing the rows of every page it fetched |
| PagedLoader.FirstPageFailure | frontend/src/hooks/tasks/useTasks.ts:92-97 | a failure of page 0 clears the list, ends loading and shows the error |
| PagedLoader.ConcatLength | frontend/src/hooks/tasks/useTasks.ts:82 | the rows of n full pages number n times 100 |
| PagedLoader.LaterPageFailure | frontend/src/hooks/tasks/useTasks.ts:92-97 | a later failure keeps the last list shown, which holds at least the first page, and shows the error |
| PagedLoader.SupersededAtFirstPage | frontend/src/hooks/tasks/useTasks.ts:61 | a call superseded during its first await changes neither the list, the published lists nor the notices, and leaves loading on |
| PagedLoader.SupersededLater | frontend/src/hooks/tasks/useTasks.ts:79 | a call superseded during a later await stops without showing anything more |
| PagedLoader.FetchShape | frontend/src/hooks/tasks/useTasks.ts:46-103 | for every sequence of replies a call requests pages 0, 1, 2, ... in order (at most 1001), every list it shows is the rows of its first few pages, it shows at most one notice, takes a new version, and ends with loading off unless superseded |
| PagedLoader.TaskLoader.Fetch | frontend/src/hooks/tasks/useDeletedTasks.ts:33-78 | fetchTasks / fetchDeletedTasks change the hook state to exactly Fetched of the old state |
| PagedLoader.TaskLoader.FetchCorrected | frontend/src/hooks/tasks/useTasks.ts:80 | the corrected fetch, which also shows the rows when the loop stops on an empty page, changes the hook state to exactly FetchedCorrected |
| PagedLoader.TaskLoader.LoadFirstPage | frontend/src/hooks/tasks/useTasks.ts:47-68 | the fetch up to page 0 does what FirstStep says and takes a new version when the loop runs |
| PagedLoader.TaskLoader.LoadRemainingPages | frontend/src/hooks/tasks/useTasks.ts:70-102 | the while loop from page 1 does what LoopFrom says |
| TaskList.RemoveTask | frontend/src/hooks/tasks/useTasks.ts:170-172 | onOptimisticRemove drops every entry with the id and keeps the other entries in order |
| TaskList.RestoreTask | frontend/src/hooks/tasks/useTasks.ts:173-188 | the restore callbacks prepend the task only when its id is not already listed |
| TaskList.RestoreLocalIdempotent | frontend/src/hooks/tasks/useTasks.ts:173-188 | restoring twice is the same as restoring once, so both restore paths may fire |
| TaskList.RemoveThenRestore | frontend/src/hooks/tasks/useTasks.ts:170-188 | a removed and then restored task is back in front of the others |
| TaskList.DeleteTarget | frontend/src/hooks/tasks/useTasks.ts:136-144 | handleDelete finds the first listed task with the id, and none when the id is not listed |
| TaskList.DeleteFlow | frontend/src/hooks/tasks/useTasks.ts:136-144 | through the undo engine, an accepted delete leaves no card with the id and a rejected one puts the card back in front |
| TaskList.ApplyDeleteAccepted | frontend/src/hooks/tasks/useTasks.ts:170-172 | the effects of an accepted delete leave the list with the card removed |
| TaskList.ApplyDeleteRejected | frontend/src/hooks/tasks/useTasks.ts:181-188 | the effects of a rejected delete remove the card and then put it back in front |
| TaskList.UndoFlow | frontend/src/hooks/tasks/useTasks.ts:173-180 | a successful Undo brings the restored task back into the current list |
| TaskList.SubmitOutcomes | frontend/src/hooks/tasks/useTasks.ts:117-133 | handleSubmit updates the task being edited and creates one otherwise; only success closes the form, leaves edit mode and reloads; a failure keeps the form and shows the error |
| TaskList.CompleteOutcomes | frontend/src/hooks/tasks/useTasks.ts:147-155 | handleComplete reloads only when the server accepted, and never touches the form |
| TaskList.TaskListHook.HandleEdit | frontend/src/hooks/tasks/useTasks.ts:111-114 | handleEdit opens the form on the given task and changes nothing else |
| TaskList.TaskListHook.OpenCreate | frontend/src/hooks/tasks/useTasks.ts:158-161 | openCreate opens a blank form |
| TaskList.TaskListHook.CloseForm | frontend/src/hooks/tasks/useTasks.ts:164-167 | closeForm closes the form and leaves edit mode |
| TaskList.TaskListHook.HandleSubmit | frontend/src/hooks/tasks/useTasks.ts:117-133 | handleSubmit changes the form state to exactly SubmitStep and leaves the list alone |
| TaskList.TaskListHook.HandleComplete | frontend/src/hooks/tasks/useTasks.ts:147-155 | handleComplete changes the form state to exactly CompleteStep |
| TaskList.TaskListHook.HandleDelete | frontend/src/hooks/tasks/useTasks.ts:136-144 | handleDelete returns the task to delete, or shows "Task not found" and hands nothing to the engine |
| TaskList.TaskListHook.OnEngineEffect | frontend/src/hooks/tasks/useTasks.ts:169-189 | each engine callback applies its list patch and leaves the form state |
| UndoDelete.DeleteWhilePendingIsNoOp | frontend/src/hooks/tasks/useUndoDelete.tsx:37-39 | deleteWithUndo on a pending id changes nothing and sends nothing |
| UndoDelete.DeleteOutcomes | frontend/src/hooks/tasks/useUndoDelete.tsx:41-91 | otherwise the card is removed before the delete request; success makes the id pending and opens the 6-second notice; failure hands back the snapshot and leaves the pending set |
| UndoDelete.UndoNeedsPending | frontend/src/hooks/tasks/useUndoDelete.tsx:50-52 | Undo of an id that is not pending does nothing |
| UndoDelete.UndoOutcomes | frontend/src/hooks/tasks/useUndoDelete.tsx:53-62 | a successful restore removes the id from the pending set before the restored task reaches the page; a failed one keeps it pending |
| UndoDelete.FailedUndoIsRetryable | frontend/src/hooks/tasks/useUndoDelete.tsx:59-62 | after a failed restore, Undo sends a new restore request |
| UndoDelete.CloseEndsUndoWindow | frontend/src/hooks/tasks/useUndoDelete.tsx:84-86 | closing a notice only removes its id from the pending set, and Undo does nothing afterwards |
| UndoDelete.StepsKeepPendingNoticed | frontend/src/hooks/tasks/useUndoDelete.tsx:36-92 | every step keeps the invariant that each pending id has had its 6-second Undo notice opened |
| UndoDelete.UndoDeleteEngine.DeleteWithUndo | frontend/src/hooks/tasks/useUndoDelete.tsx:36-92 | deleteWithUndo changes the engine state to exactly DeleteStep |
| UndoDelete.UndoDeleteEngine.Undo | frontend/src/hooks/tasks/useUndoDelete.tsx:49-63 | the Undo button changes the engine state to exactly UndoStep |
| UndoDelete.UndoDeleteEngine.Close | frontend/src/hooks/tasks/useUndoDelete.tsx:84-86 | onClose changes the engine state to exactly CloseStep |
| Deadlines.SortByDeadlineAscending | frontend/src/components/tasks/TaskCalendarWidget.tsx:20-24 | sorting by deadline gives ascending deadline keys, with a missing deadline counted as MAX_SAFE_INTEGER |
| Deadlines.SortByDeadlineStable | frontend/src/components/tasks/TaskCalendarWidget.tsx:80-82 | tasks with equal deadlines keep their input order, since there is no tiebreak |
| Deadlines.SortedDeadlineValues | frontend/src/components/tasks/TaskCalendarWidget.tsx:80-82 | sorting tasks that all have deadlines puts the deadlines in ascending order |
| Deadlines.DeadlineUrgency | frontend/src/components/tasks/TaskCalendarWidget.tsx:26-32 | no deadline is NONE; at most 24 hours left (overdue included) is RED, at most 168 hours ORANGE, anything later YELLOW |
| Deadlines.UrgencyMonotone | frontend/src/components/tasks/TaskCalendarWidget.tsx:26-32 | a later deadline is never more urgent, and urgency never falls as time passes |
| TaskCalendar.UrgencyColor | frontend/src/components/tasks/TaskCalendarWidget.tsx:34-39 | every urgency but NONE has a colour |
| TaskCalendar.DayUrgency | frontend/src/components/tasks/TaskCalendarWidget.tsx:41-46 | a day's urgency is the most severe urgency of its tasks, and NONE for a day without tasks |
| TaskCalendar.TasksByDate | frontend/src/components/tasks/TaskCalendarWidget.tsx:67-85 | the map's keys are exactly the days some task is due, and each day's list is its tasks by deadline |
| TaskCalendar.GroupByDay | frontend/src/components/tasks/TaskCalendarWidget.tsx:70-78 | the forEach puts every task with a deadline into the group of its day, keeping input order |
| TaskCalendar.SortGroups | frontend/src/components/tasks/TaskCalendarWidget.tsx:80-82 | the second forEach sorts each group by deadline in place, keeping the keys |
| TaskCalendar.DayTasksAreBucket | frontend/src/components/tasks/TaskCalendarWidget.tsx:87-88 | the list shown for a day is exactly the tasks due that day, earliest first, and empty for a day without a group |
| TaskCalendar.BucketFacts | frontend/src/components/tasks/TaskCalendarWidget.tsx:67-85 | a day's list holds exactly the tasks due that day, each with a deadline, in ascending deadline order |
| TaskCalendar.CellSummary | frontend/src/components/tasks/TaskCalendarWidget.tsx:250-256 | a cell shows the first tasks, at most three, and the hidden count is the rest; something is hidden exactly when there are more than three |
| TaskCalendar.CellShowsAsManyAsFit | frontend/src/components/tasks/TaskCalendarWidget.tsx:252-254 | a truncated cell shows three tasks, and a short day shows all of them |
| TaskCalendar.MonthPanel | frontend/src/components/tasks/TaskCalendarWidget.tsx:376-384 | a month lists exactly the tasks due within it, earliest first |
| TaskCalendar.MonthOrder | frontend/src/components/tasks/TaskCalendarWidget.tsx:378-384 | the month list is in ascending deadline order |
| TaskCalendar.MonthUrgency | frontend/src/components/tasks/TaskCalendarWidget.tsx:385-387 | a month task counts as urgent exactly when its deadline is at most a week away, the count is at most the month's tasks, and it is 0 when the earliest one is more than a week away |
| TaskCalendar.WeekStart | frontend/src/components/tasks/TaskCalendarWidget.tsx:89 | the week starts on the Sunday on or before the selected day |
| TaskCalendar.WeekDays | frontend/src/components/tasks/TaskCalendarWidget.tsx:90-93 | the week panel has seven days |
| TaskCalendar.WeekShowsSelectedDay | frontend/src/components/tasks/TaskCalendarWidget.tsx:89-93 | the selected day is one of the week panel's days, and the days are consecutive |
| TaskCalendar.MovePeriod | frontend/src/components/tasks/TaskCalendarWidget.tsx:95-98 | the arrows move by a week in week view, a year in year view, and a month otherwise, in the given direction |
| TaskCalendar.YearOptions | frontend/src/components/tasks/TaskCalendarWidget.tsx:109-115 | the year selector has thirteen years |
| TaskCalendar.YearOptionsCentred | frontend/src/components/tasks/TaskCalendarWidget.tsx:109-115 | the options are the thirteen consecutive years centred on the selected one |
| TaskCalendar.WheelStep | frontend/src/components/tasks/TaskCalendarWidget.tsx:132-145 | a wheel event moves the period exactly when the accumulated distance reaches 260 and 180 ms have passed since the last move; a move resets the distance and goes by its sign, a throttled event keeps the distance |
| TaskCalendar.WheelThrottles | frontend/src/components/tasks/TaskCalendarWidget.tsx:136-144 | two moves by the wheel are at least 180 ms apart, whatever events come between them |
| TaskCalendar.CalendarWheel.HandleWheel | frontend/src/components/tasks/TaskCalendarWidget.tsx:132-145 | handleCalendarWheel updates the wheel refs and the view to exactly what WheelStep says |
| TaskHealth.DueSoonHours | frontend/src/components/tasks/TaskHealthWidget.tsx:38-44 | the due-soon window is 72 hours for HIGH, 48 for MODERATE and 24 otherwise |
| TaskHealth.TaskHealthAt | frontend/src/components/tasks/TaskHealthWidget.tsx:22-47 | a finished or undated task is on track; an unfinished one is overdue exactly when its deadline is before the reference time, and due soon exactly when it is within the priority's window |
| TaskHealth.HigherPriorityWidensWindow | frontend/src/components/tasks/TaskHealthWidget.tsx:38-44 | raising a task's priority never makes it look healthier |
| TaskHealth.HealthWorsensOverTime | frontend/src/components/tasks/TaskHealthWidget.tsx:31-44 | as the reference time moves forward a task only gets more urgent |
| TaskHealth.OverallHealth | frontend/src/components/tasks/TaskHealthWidget.tsx:85-89 | the overall health is the worst health of the tasks, and on track for no tasks |
| TaskHealth.ReferenceTime | frontend/src/components/tasks/TaskHealthWidget.tsx:70-72 | the reference is now on today and the last millisecond of the selected day otherwise |
| TaskHealth.PastOrFutureDayJudgedAtItsEnd | frontend/src/components/tasks/TaskHealthWidget.tsx:70-72 | on a day other than today an unfinished task due that day is never on track |
| TaskHealth.TasksForDay | frontend/src/components/tasks/TaskHealthWidget.tsx:74-76 | only the tasks whose deadline falls on the selected day are analysed, in list order |
| TaskHealth.DayOverdueIff | frontend/src/components/tasks/TaskHealthWidget.tsx:78-89 | a day is overdue exactly when one of its unfinished tasks is past its deadline at the reference time |
| DeletedTasksView.KeepsIff | frontend/src/pages/tasks/DeletedTasksPage.tsx:85-109 | a task is kept exactly when the keyword occurs in it, its raw status is the selected one, its deadline's day is within a fully picked range, and its deadline is within the quick window |
| DeletedTasksView.SameDayIffRange | frontend/src/pages/tasks/DeletedTasksPage.tsx:92-104 | a deadline lies between the start of the first picked day and the end of the last exactly when its day lies between them |
| DeletedTasksView.HalfRangeIgnored | frontend/src/pages/tasks/DeletedTasksPage.tsx:92-95 | a half-picked range filters nothing |
| DeletedTasksView.DeletedListMember | frontend/src/pages/tasks/DeletedTasksPage.tsx:85-118 | a task is listed exactly when it is deleted-listed and kept |
| DeletedTasksView.DeletedListExact | frontend/src/pages/tasks/DeletedTasksPage.tsx:85-118 | the page lists exactly the kept tasks, never more often than given, earliest deadline first, with equal deadlines in input order |
| DeletedTasksView.MissingDeadlinesLast | frontend/src/pages/tasks/DeletedTasksPage.tsx:111-117 | a task without a deadline comes after every task due before MAX_SAFE_INTEGER |
| DeletedTasksView.DeadlineColor | frontend/src/pages/tasks/DeletedTasksPage.tsx:32-41 | red for at most 24 hours left (past deadlines included), orange for at most 168 hours, and no colour otherwise or without a deadline |
| DeletedTasksView.DeadlineColorMatchesUrgency | frontend/src/pages/tasks/DeletedTasksPage.tsx:32-41 | the tag colour agrees with the calendar's urgency, with YELLOW getting no colour |
| DeletedTasksView.TruncateText | frontend/src/pages/tasks/DeletedTasksPage.tsx:43-47 | "-" for missing or empty text, the text when it fits, otherwise its first maxLength characters and "..." |
| DeletedTasksView.TruncateBounded | frontend/src/pages/tasks/DeletedTasksPage.tsx:43-47 | a cell is never empty and never longer than maxLength plus the ellipsis |
| TodayDeadlines.TodayMember | frontend/src/components/tasks/TodayDeadlinesWidget.tsx:25-30 | a task appears exactly when it has a deadline whose day is today |
| TodayDeadlines.TodayOrder | frontend/src/components/tasks/TodayDeadlinesWidget.tsx:31 | today's tasks all have deadlines, in ascending order |
| TodayDeadlines.TodayTasksExact | frontend/src/components/tasks/TodayDeadlinesWidget.tsx:28-32 | the list is exactly today's tasks, a sub-multiset of the input, earliest first |
| TaskTableView.TableSearchExact | frontend/src/components/tasks/TaskTable.tsx:102-119 | a blank search returns the input itself; otherwise exactly the tasks whose joined fields contain the trimmed, lower-cased term, keeping their order |
| TaskTableView.ColumnFilterIff | frontend/src/components/tasks/TaskTable.tsx:56-68 | a missing field passes only the empty value, and a present one only its own value |
| TaskTableView.FieldSorter | frontend/src/components/tasks/TaskTable.tsx:57-69 | the priority and status sorters tie exactly when the fields, missing counted as '', are equal |
| TaskTableView.FieldSorterOpposite | frontend/src/components/tasks/TaskTable.tsx:57-69 | swapping rows negates the sorter, and a missing value sorts as '' |
| TaskTableView.MissingDeadlineSortsFirst | frontend/src/components/tasks/TaskTable.tsx:76-77 | a task without a deadline sorts before any task due after the epoch and ties with one due at it |
| TaskTableView.DeadlineSorterConsistent | frontend/src/components/tasks/TaskTable.tsx:76-77 | the deadline sorter is a consistent comparator |
| TaskForm.ZeroSeconds | frontend/src/components/tasks/TaskFormModal.tsx:65 | .second(0).millisecond(0) gives the start of the minute, not after the time and less than a minute before it |
| TaskForm.ZeroSecondsIdempotent | frontend/src/components/tasks/TaskFormModal.tsx:65 | zeroing the seconds twice is zeroing them once |
| TaskForm.OpenValues | frontend/src/components/tasks/TaskFormModal.tsx:34-52 | a new task starts with LOW, PENDING and a deadline one hour ahead at the start of its minute; an edited task shows its title, priority and status, a missing description as '', and its deadline (an hour ahead when missing) at the start of its minute |
| TaskForm.ValidateFutureDeadline | frontend/src/components/tasks/TaskFormModal.tsx:78-81 | a missing deadline is "Please select deadline", and a deadline not strictly after now is "Deadline must be in the future" |
| TaskForm.DisabledDate | frontend/src/components/tasks/TaskFormModal.tsx:72-75 | the picker disables exactly the days before today, and no date is never disabled |
| TaskForm.DefaultDeadlineIsValid | frontend/src/components/tasks/TaskFormModal.tsx:45-52 | the default deadline of a new task is valid, offered by the picker, and within the next hour |
| TaskForm.Payload | frontend/src/components/tasks/TaskFormModal.tsx:57-69 | the payload title is trimmed, the description trimmed or '', and the deadline is the start of its minute |
| TaskForm.EditRoundTrip | frontend/src/components/tasks/TaskFormModal.tsx:34-69 | opening a task for edit and submitting without change sends the title and description back trimmed (a missing description as an empty string), the same priority and status, and the deadline at the start of its minute |
| TasksPage.StatsBounded | frontend/src/pages/tasks/TasksPage.tsx:59-68 | total is the task count; completed is the number of tasks whose status is exactly COMPLETED and pending the number whose status is exactly PENDING, so DONE and TODO are in neither count and completed plus pending never exceeds total |
| TasksPage.ToTaskRequest | frontend/src/pages/tasks/TasksPage.tsx:45-54 | no task gives nothing; otherwise title and description default to '' and priority, status and deadline are copied |
| ClientTypes.ReadErrorMessage | frontend/src/hooks/tasks/useTasks.ts:19-24 | the error's message when it is non-empty, the fallback otherwise |
| ClientTypes.Keyword | frontend/src/pages/tasks/KanbanPage.tsx:130 | the keyword is no longer than the search and empty exactly when the search is white space |
| ClientTypes.SearchFindsField | frontend/src/pages/tasks/KanbanPage.tsx:139-142 | a keyword that occurs in one of the task's fields, lower-cased, matches the task |
| Text.TrimEmptyIff | frontend/src/components/tasks/TaskTable.tsx:103-104 | a string trims to empty exactly when it is all white space |
| Text.CompareText | frontend/src/pages/tasks/KanbanPage.tsx:94 | the title comparison is 0 exactly for equal titles |
| Text.CompareTextAntisymmetric | frontend/src/pages/tasks/KanbanPage.tsx:94 | swapping the titles negates the comparison |
| Text.CompareTextTransitive | frontend/src/pages/tasks/KanbanPage.tsx:94 | the title comparison is transitive |
| Time.StartOfDay | frontend/src/pages/tasks/DeletedTasksPage.tsx:93 | startOf('day') lies on the same day, not after the time and less than a day before it |
| Time.EndOfDay | frontend/src/pages/tasks/DeletedTasksPage.tsx:94 | endOf('day') is the last millisecond of the same day |
| Time.SameDayIff | frontend/src/components/tasks/TodayDeadlinesWidget.tsx:25-30 | a time lies between the start and the end of a day exactly when it falls on that day |
| Time.QuickWindowEnd | frontend/src/pages/tasks/KanbanPage.tsx:132-135 | the quick window ends at the last millisecond of the day that many days ahead |
| JsArray.Filter | frontend/src/pages/tasks/KanbanPage.tsx:137 | filter keeps exactly the elements that pass, never more often than given |
| JsArray.FilterSubsequence | frontend/src/components/tasks/TaskTable.tsx:106 | filter keeps the surviving elements in their original order |
| JsArray.Find | frontend/src/pages/tasks/KanbanPage.tsx:198 | find yields the first element that passes, and nothing when none passes |
| JsArray.Sort | frontend/src/pages/tasks/KanbanPage.tsx:167-169 | sort is a permutation of its input |
| JsArray.SortSorted | frontend/src/pages/tasks/KanbanPage.tsx:167-169 | with a consistent comparator the result of sort is ordered |
| JsArray.SortStable | frontend/src/components/tasks/TaskCalendarWidget.tsx:80-82 | sort is stable: elements that all compare equal keep their relative order |
| JsArray.Count | frontend/src/pages/tasks/TasksPage.tsx:60-61 | filter(...).length is the number of positions whose element passes the predicate, hence at most the array length |
| TasksPage.StatusCount | frontend/src/pages/tasks/TasksPage.tsx:60-61 | counting one status counts exactly the positions carrying that status, and a task with any other status is not among them |

## Left out

- HTTP and axios calls: each server reply, such as a page of rows, a resolved or rejected call, or the restored task, is an input of the operation that awaits it.
- Timers and toasts: the toast duration, the antd message queue and the health widget's one-minute refresh (the 6-second Undo duration is kept as a constant). Closing a notice is an explicit `Close` call.
- dayjs month and year arithmetic (`add(1, 'month')`, `startOf('month')`, `format`) and `plusMonths` on the server: the server's is a parameter, and the calendar's month and year panels take their bounds as inputs.
- `localeCompare`: replaced by a code-unit lexicographic comparison, `Text.CompareText`. Locale collation is not modelled.
- The clock, UUIDs, `updateDeadline` and the mapper's safe setters: parameters, as described above. Their own rules are not part of this model.
- getAllTasks: only the sort sanitising is modelled. Paging and sorting are done by the database and are left out. `getTaskById` is `FindActiveTask` followed by `ToResponse`.
- Floating point: dayjs's fractional hour differences are compared exactly in milliseconds, and the wheel's `deltaY` is an integer.
- Text: upper and lower case cover ASCII only. Unicode case mapping and normalisation are left out.
- Response timestamps (`LocalDateTime.now()` in the error bodies) are left out.
- Bean validation of request DTOs: only the handler's treatment of its field errors is modelled.
- Concurrency: only through the fetch version and the point where a newer call supersedes the running one. Database concurrency and locking are left out.
- Rendering: the JSX, antd tables, the pagination of widgets, form validation other than the deadline rule, the deleted page's title sorter and dayjs's Invalid Date are left out.
- The REST controller, the DTO classes, the repository interface and the legacy components outside the pages and hooks covered here.
- PagedLoader.FetchShape: the first page's array is handed to `setTasks` and then extended in place by `rows.push`. The model treats each `setTasks` argument as a value. So when page 1 is the last full page, the rows it adds are in the array held as state but are not rendered until something else re-renders the page. Every later list is shown through a copy, so the model is exact for those.

## Findings

Each finding has two halves. The members that follow the code as written are `Fetch` and `MarkTaskAsCompleted`. The corrected members, `FetchCorrected` and `MarkTaskAsCompletedOnce`, sit beside them in the same classes, and the intended properties are proved about the corrected functions.

| source | as written | input that shows it | evidently intended | confidence | as-written member | corrected member |
|---|---|---|---|---|---|---|
| frontend/src/hooks/tasks/useTasks.ts:80 | the loop breaks on an empty page before publishing, and rows are published only on even pages or short pages, so when the last full page has an odd index its rows are never shown (the same loop is in frontend/src/hooks/tasks/useDeletedTasks.ts:56) | 400 tasks: pages 0 to 3 full, page 4 empty; the list ends with the 300 rows published at page 2 | every fetched row is shown once the loop ends | not executed | PagedLoader.EmptyFinalPageAsWritten, PagedLoader.FourHundredRowsShowOnlyThreeHundred | PagedLoader.EmptyFinalPageCorrected, PagedLoader.CorrectedShowsAllRows, PagedLoader.TaskLoader.FetchCorrected |
| task/src/main/java/com/decena/task/Service/ServiceImpl/TaskServiceImpl.java:183-186 | `findActiveTask` normalises COMPLETED to DONE before `markAsCompleted` runs, so its TaskAlreadyCompletedException can never fire, and completing an already completed recurring task succeeds and spawns another follow-up | a DAILY task with a deadline, completed twice | a completed task cannot be completed again, and each completion spawns at most one follow-up | not executed | ServiceProperties.LookupHidesCompletedStatus, ServiceProperties.RecompletionSpawnsAgain | ServiceProperties.CompletedOnceRefusesRecompletion, ServiceProperties.CompletedOnceAgreesOtherwise, TaskService.TaskServiceImpl.MarkTaskAsCompletedOnce |
