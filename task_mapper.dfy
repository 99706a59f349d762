/**
 * TaskMapper: translation between the request/response DTOs and the entity.
 * The DTOs carry the fields the service and the Kanban board use
 * (board order and the recurrence settings besides the basic ones).
 */
module TaskMapper {
  import opened Wrappers
  import opened Text
  import opened Time
  import opened TaskExceptions
  import opened TaskEntity

  /** TaskRequest as the mapper reads it; enum values arrive as strings. */
  datatype TaskRequest = TaskRequest(
    title: Option<string>,
    description: Option<string>,
    priority: Option<string>,
    status: Option<string>,
    boardOrder: Option<int>,
    deadline: Option<Millis>,
    recurrenceType: Option<string>,
    recurrenceInterval: Option<int>,
    recurrenceEndAt: Option<Millis>,
    recurrenceGroupId: Option<string>)

  /** A request with every field null. */
  const EmptyRequest := TaskRequest(None, None, None, None, None, None, None, None, None, None)

  /** TaskResponse as the mapper builds it; enum values leave as names. */
  datatype TaskResponse = TaskResponse(
    id: Option<int>,
    title: Option<string>,
    description: Option<string>,
    priority: Option<string>,
    status: Option<string>,
    boardOrder: Option<int>,
    recurrenceType: Option<string>,
    recurrenceInterval: Option<int>,
    recurrenceEndAt: Option<Millis>,
    recurrenceGroupId: Option<string>,
    deadline: Option<Millis>,
    dateCreated: Option<Millis>)

  /**
   * The entity helpers setPrioritySafe and setStatusSafe, whose bodies are not part
   * of this model: each maps the request string to the value it assigns, or throws.
   */
  datatype EntityHooks = EntityHooks(
    prioritySafe: Option<string> -> Outcome<Option<Priority>>,
    statusSafe: Option<string> -> Outcome<Option<Status>>)

  /** normalizeStatus: the status name the API exposes, legacy names replaced. */
  function NormalizeStatus(s: Option<Status>): (r: Option<string>)
    ensures r.None? <==> s.None?
    ensures r != Some("PENDING") && r != Some("COMPLETED")
    ensures s == Some(PENDING) ==> r == Some("TODO")
    ensures s == Some(COMPLETED) ==> r == Some("DONE")
    ensures s.Some? && s.value !in {PENDING, COMPLETED} ==> r == Some(StatusName(s.value))
  {
    match s
    case None => None
    case Some(PENDING) => Some(StatusName(TODO))
    case Some(COMPLETED) => Some(StatusName(DONE))
    case Some(st) => Some(StatusName(st))
  }

  function PriorityNameOrNull(p: Option<Priority>): Option<string> {
    match p
    case None => None
    case Some(v) => Some(PriorityName(v))
  }

  function RecurrenceNameOrNull(t: Option<RecurrenceType>): Option<string> {
    match t
    case None => None
    case Some(v) => Some(RecurrenceTypeName(v))
  }

  /** toResponse: null in, null out; otherwise a field-by-field copy with enums as names. */
  function ToResponse(t: Option<TaskState>): (r: Option<TaskResponse>)
    ensures r.None? <==> t.None?
    ensures t.Some? ==> var e, o := t.value, r.value;
      o.id == e.id && o.title == e.title && o.description == e.description
      && o.boardOrder == e.boardOrder && o.deadline == e.deadline && o.dateCreated == e.dateCreated
      && o.recurrenceInterval == e.recurrenceInterval && o.recurrenceEndAt == e.recurrenceEndAt
      && o.recurrenceGroupId == e.recurrenceGroupId
      && (o.priority.Some? <==> e.priority.Some?) && (e.priority.Some? ==> o.priority == Some(PriorityName(e.priority.value)))
      && (o.recurrenceType.Some? <==> e.recurrenceType.Some?)
      && (e.recurrenceType.Some? ==> o.recurrenceType == Some(RecurrenceTypeName(e.recurrenceType.value)))
      && o.status == NormalizeStatus(e.status)
  {
    match t
    case None => None
    case Some(e) =>
      Some(TaskResponse(e.id, e.title, e.description, PriorityNameOrNull(e.priority), NormalizeStatus(e.status),
        e.boardOrder, RecurrenceNameOrNull(e.recurrenceType), e.recurrenceInterval, e.recurrenceEndAt,
        e.recurrenceGroupId, e.deadline, e.dateCreated))
  }

  /** A response never carries a legacy status name. */
  lemma ResponseStatusNeverLegacy(t: TaskState)
    ensures ToResponse(Some(t)).value.status !in {Some("PENDING"), Some("COMPLETED")}
  {
  }

  /** convertPriority: null stays null, otherwise the upper-cased name must be a constant. */
  function ConvertPriority(value: Option<string>): (r: Outcome<Option<Priority>>)
    ensures value.None? ==> r == Ok(None)
    ensures value.Some? ==> (r.Ok? <==> ToUpper(value.value) in {"HIGH", "MODERATE", "LOW"})
    ensures value.Some? && r.Ok? ==> r.value.Some? && PriorityName(r.value.value) == ToUpper(value.value)
  {
    match value
    case None => Ok(None)
    case Some(v) =>
      var p :- PriorityValueOf(ToUpper(v));
      Ok(Some(p))
  }

  /** convertStatus: null stays null; upper-cased, legacy aliases mapped, never a legacy value. */
  function ConvertStatus(value: Option<string>): (r: Outcome<Option<Status>>)
    ensures value.None? ==> r == Ok(None)
    ensures value.Some? ==> (r.Ok? <==> ToUpper(value.value) in {"PENDING", "COMPLETED", "TODO", "IN_PROGRESS", "DONE"})
    ensures value.Some? && r.Ok? ==> r.value.Some? && r.value.value !in {PENDING, COMPLETED}
    ensures value.Some? && r.Ok? ==> StatusName(r.value.value) == KanbanAlias(ToUpper(value.value))
  {
    match value
    case None => Ok(None)
    case Some(v) =>
      var s :- StatusValueOf(KanbanAlias(ToUpper(v)));
      Ok(Some(s))
  }

  /** convertRecurrenceType: null or blank means NONE, otherwise the upper-cased name must be a constant. */
  function ConvertRecurrenceType(value: Option<string>): (r: Outcome<RecurrenceType>)
    ensures value.None? || IsBlank(value.value) ==> r == Ok(NONE)
    ensures value.Some? && !IsBlank(value.value) ==>
      (r.Ok? <==> ToUpper(value.value) in {"NONE", "DAILY", "WEEKLY", "MONTHLY"})
      && (r.Ok? ==> RecurrenceTypeName(r.value) == ToUpper(value.value))
      && (r.Err? ==> r == Illegal(NoEnumConstant("RecurrenceType", ToUpper(value.value))))
  {
    if value.None? || IsBlank(value.value) then Ok(NONE)
    else RecurrenceTypeValueOf(ToUpper(value.value))
  }

  /** toEntity: a fresh, unsaved entity holding the request's core fields. */
  function ToEntity(request: Option<TaskRequest>, hooks: EntityHooks): (r: Outcome<Option<TaskState>>)
    ensures request.None? ==> r == Ok(None)
    ensures request.Some? && r.Ok? ==> r.value.Some?
    ensures request.Some? && r.Ok? ==> var q, e := request.value, r.value.value;
      e.id.None? && e.dateCreated.None? && !e.deleted
      && e.title == q.title && e.description == q.description && e.boardOrder == q.boardOrder
      && e.deadline == q.deadline && e.recurrenceInterval == q.recurrenceInterval
      && e.recurrenceEndAt == q.recurrenceEndAt && e.recurrenceGroupId == q.recurrenceGroupId
      && Ok(e.priority) == hooks.prioritySafe(q.priority) && Ok(e.status) == hooks.statusSafe(q.status)
      && e.recurrenceType.Some? && Ok(e.recurrenceType.value) == ConvertRecurrenceType(q.recurrenceType)
    ensures request.Some? && r.Err? ==>
      hooks.prioritySafe(request.value.priority).Err? || hooks.statusSafe(request.value.status).Err?
      || ConvertRecurrenceType(request.value.recurrenceType).Err?
  {
    match request
    case None => Ok(None)
    case Some(q) =>
      var built := EmptyTask.(title := q.title, description := q.description, boardOrder := q.boardOrder,
        recurrenceInterval := q.recurrenceInterval, recurrenceEndAt := q.recurrenceEndAt,
        recurrenceGroupId := q.recurrenceGroupId, deadline := q.deadline);
      var priority :- hooks.prioritySafe(q.priority);
      var status :- hooks.statusSafe(q.status);
      var recurrence :- ConvertRecurrenceType(q.recurrenceType);
      Ok(Some(built.(priority := priority, status := status, recurrenceType := Some(recurrence))))
  }

  /** True when updating t with q may only have replaced fields for which q carries a value. */
  predicate CopiesPresentFields(q: TaskRequest, t: TaskState, u: TaskState) {
    (q.title.Some? ==> u.title == q.title) && (q.title.None? ==> u.title == t.title)
    && (q.description.Some? ==> u.description == q.description) && (q.description.None? ==> u.description == t.description)
    && (q.priority.None? ==> u.priority == t.priority)
    && (q.status.None? ==> u.status == t.status)
    && (q.boardOrder.Some? ==> u.boardOrder == q.boardOrder) && (q.boardOrder.None? ==> u.boardOrder == t.boardOrder)
    && (q.deadline.Some? ==> u.deadline == q.deadline) && (q.deadline.None? ==> u.deadline == t.deadline)
    && (q.recurrenceType.None? ==> u.recurrenceType == t.recurrenceType)
    && (q.recurrenceInterval.Some? ==> u.recurrenceInterval == q.recurrenceInterval)
    && (q.recurrenceInterval.None? ==> u.recurrenceInterval == t.recurrenceInterval)
    && (q.recurrenceGroupId.Some? ==> u.recurrenceGroupId == q.recurrenceGroupId)
    && (q.recurrenceGroupId.None? ==> u.recurrenceGroupId == t.recurrenceGroupId)
    && u.id == t.id && u.dateCreated == t.dateCreated && u.deleted == t.deleted
  }

  /**
   * updateEntity on the values: copy each non-null request field, converting enum
   * strings; the recurrence end date is copied even when it is null.
   */
  function UpdatedEntity(q: TaskRequest, t: TaskState): (r: Outcome<TaskState>)
    ensures r.Ok? <==> ConvertPriority(q.priority).Ok? && ConvertStatus(q.status).Ok? && (q.recurrenceType.None? || ConvertRecurrenceType(q.recurrenceType).Ok?)
    ensures r.Ok? ==> CopiesPresentFields(q, t, r.value)
    ensures r.Ok? ==> r.value.recurrenceEndAt == q.recurrenceEndAt
    ensures r.Ok? && q.priority.Some? ==> r.value.priority == ConvertPriority(q.priority).value
    ensures r.Ok? && q.status.Some? ==> r.value.status == ConvertStatus(q.status).value && r.value.status.Some?
    ensures r.Ok? && q.recurrenceType.Some? ==> r.value.recurrenceType == Some(ConvertRecurrenceType(q.recurrenceType).value)
  {
    var priority :- ConvertPriority(q.priority);
    var status :- ConvertStatus(q.status);
    var recurrence :- if q.recurrenceType.Some? then ConvertRecurrenceType(q.recurrenceType) else Ok(NONE);
    Ok(Overlay(q, t, priority, status, if q.recurrenceType.Some? then Some(recurrence) else None))
  }

  /** The entity with the request's non-null values (and its end date) written over it. */
  function Overlay(q: TaskRequest, t: TaskState, priority: Option<Priority>, status: Option<Status>,
                   recurrence: Option<RecurrenceType>): TaskState
  {
    t.(title := q.title.Or(t.title),
       description := q.description.Or(t.description),
       priority := priority.Or(t.priority),
       status := status.Or(t.status),
       boardOrder := q.boardOrder.Or(t.boardOrder),
       deadline := q.deadline.Or(t.deadline),
       recurrenceType := recurrence.Or(t.recurrenceType),
       recurrenceInterval := q.recurrenceInterval.Or(t.recurrenceInterval),
       recurrenceEndAt := q.recurrenceEndAt,
       recurrenceGroupId := q.recurrenceGroupId.Or(t.recurrenceGroupId))
  }

  /** An empty request changes nothing but the recurrence end date, which it clears. */
  lemma EmptyRequestClearsOnlyEndDate(t: TaskState)
    ensures UpdatedEntity(EmptyRequest, t) == Ok(t.(recurrenceEndAt := None))
  {
  }

  /** Applying the same request twice is the same as applying it once. */
  lemma UpdateIdempotent(q: TaskRequest, t: TaskState)
    requires UpdatedEntity(q, t).Ok?
    ensures UpdatedEntity(q, UpdatedEntity(q, t).value) == UpdatedEntity(q, t)
  {
  }

  /**
   * updateEntity on the managed object. The three enum conversions run in the
   * order of the source; a failing one throws, and the service's transaction then
   * discards the object, so the contract only names the exception.
   */
  method UpdateEntity(q: TaskRequest, task: Task) returns (r: Outcome<()>)
    modifies task
    ensures UpdatedEntity(q, old(task.State())).Ok? ==> r == Ok(()) && task.State() == UpdatedEntity(q, old(task.State())).value
    ensures UpdatedEntity(q, old(task.State())).Err? ==> r == Err(UpdatedEntity(q, old(task.State())).error)
  {
    var priority := ConvertPriority(q.priority);
    if priority.Err? {
      return Err(priority.error);
    }
    var status := ConvertStatus(q.status);
    if status.Err? {
      return Err(status.error);
    }
    var recurrence: Option<RecurrenceType> := None;
    if q.recurrenceType.Some? {
      var converted := ConvertRecurrenceType(q.recurrenceType);
      if converted.Err? {
        return Err(converted.error);
      }
      recurrence := Some(converted.value);
    }
    CopyFields(q, task, priority.value, status.value, recurrence);
    r := Ok(());
  }

  /**
   * The setter calls of updateEntity, with the enum values already converted:
   * a field keeps its value when the request leaves it null.
   */
  method CopyFields(q: TaskRequest, task: Task, priority: Option<Priority>, status: Option<Status>,
                    recurrence: Option<RecurrenceType>)
    modifies task
    ensures task.State() == Overlay(q, old(task.State()), priority, status, recurrence)
  {
    task.title := q.title.Or(task.title);
    task.description := q.description.Or(task.description);
    task.priority := priority.Or(task.priority);
    task.status := status.Or(task.status);
    task.boardOrder := q.boardOrder.Or(task.boardOrder);
    task.deadline := q.deadline.Or(task.deadline);
    task.recurrenceType := recurrence.Or(task.recurrenceType);
    task.recurrenceInterval := q.recurrenceInterval.Or(task.recurrenceInterval);
    task.recurrenceEndAt := q.recurrenceEndAt;
    task.recurrenceGroupId := q.recurrenceGroupId.Or(task.recurrenceGroupId);
  }
}
