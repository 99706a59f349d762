/**
 * The Task entity: its enums, its persistent state, and the two entity methods
 * that assign fields in place (the prePersist callback and markAsCompleted).
 * The status enum has the five values the service and the mapper use:
 * the legacy PENDING and COMPLETED and the Kanban TODO, IN_PROGRESS and DONE.
 */
module TaskEntity {
  import opened Wrappers
  import opened Time
  import opened TaskExceptions

  datatype Status = PENDING | COMPLETED | TODO | IN_PROGRESS | DONE
  datatype Priority = HIGH | MODERATE | LOW
  datatype RecurrenceType = NONE | DAILY | WEEKLY | MONTHLY

  function StatusName(s: Status): string {
    match s
    case PENDING => "PENDING"
    case COMPLETED => "COMPLETED"
    case TODO => "TODO"
    case IN_PROGRESS => "IN_PROGRESS"
    case DONE => "DONE"
  }

  function PriorityName(p: Priority): string {
    match p
    case HIGH => "HIGH"
    case MODERATE => "MODERATE"
    case LOW => "LOW"
  }

  function RecurrenceTypeName(t: RecurrenceType): string {
    match t
    case NONE => "NONE"
    case DAILY => "DAILY"
    case WEEKLY => "WEEKLY"
    case MONTHLY => "MONTHLY"
  }

  /** The legacy aliases both status parsers accept: PENDING reads as TODO, COMPLETED as DONE. */
  function KanbanAlias(upper: string): (r: string)
    ensures r != "PENDING" && r != "COMPLETED"
    ensures upper != "PENDING" && upper != "COMPLETED" ==> r == upper
  {
    if upper == "PENDING" then "TODO"
    else if upper == "COMPLETED" then "DONE"
    else upper
  }

  /** The message of Enum.valueOf for a name that is not a constant of the enum. */
  function NoEnumConstant(enumName: string, name: string): string {
    "No enum constant " + "com.decena.task." + "Entity.Task." + enumName + "." + name
  }

  /** Task.Status.valueOf: exact, case-sensitive match of a constant name. */
  function StatusValueOf(name: string): (r: Outcome<Status>)
    ensures forall s: Status :: r == Ok(s) <==> StatusName(s) == name
    ensures r.Err? ==> r == Illegal(NoEnumConstant("Status", name))
  {
    if name == "PENDING" then Ok(PENDING)
    else if name == "COMPLETED" then Ok(COMPLETED)
    else if name == "TODO" then Ok(TODO)
    else if name == "IN_PROGRESS" then Ok(IN_PROGRESS)
    else if name == "DONE" then Ok(DONE)
    else Illegal(NoEnumConstant("Status", name))
  }

  /** Task.Priority.valueOf. */
  function PriorityValueOf(name: string): (r: Outcome<Priority>)
    ensures forall p: Priority :: r == Ok(p) <==> PriorityName(p) == name
    ensures r.Err? ==> r == Illegal(NoEnumConstant("Priority", name))
  {
    if name == "HIGH" then Ok(HIGH)
    else if name == "MODERATE" then Ok(MODERATE)
    else if name == "LOW" then Ok(LOW)
    else Illegal(NoEnumConstant("Priority", name))
  }

  /** Task.RecurrenceType.valueOf. */
  function RecurrenceTypeValueOf(name: string): (r: Outcome<RecurrenceType>)
    ensures forall t: RecurrenceType :: r == Ok(t) <==> RecurrenceTypeName(t) == name
    ensures r.Err? ==> r == Illegal(NoEnumConstant("RecurrenceType", name))
  {
    if name == "NONE" then Ok(NONE)
    else if name == "DAILY" then Ok(DAILY)
    else if name == "WEEKLY" then Ok(WEEKLY)
    else if name == "MONTHLY" then Ok(MONTHLY)
    else Illegal(NoEnumConstant("RecurrenceType", name))
  }

  /** The columns of a task row; a Java null is None. */
  datatype TaskState = TaskState(
    id: Option<int>,
    title: Option<string>,
    description: Option<string>,
    dateCreated: Option<Millis>,
    priority: Option<Priority>,
    deadline: Option<Millis>,
    status: Option<Status>,
    deleted: bool,
    boardOrder: Option<int>,
    recurrenceType: Option<RecurrenceType>,
    recurrenceInterval: Option<int>,
    recurrenceEndAt: Option<Millis>,
    recurrenceGroupId: Option<string>)

  /** Task.builder().build() with nothing set: every reference null, deleted false. */
  const EmptyTask := TaskState(None, None, None, None, None, None, None, false, None, None, None, None, None)

  /** The state after prePersist, run at time now. */
  function PrePersisted(t: TaskState, now: Millis): (r: TaskState)
    ensures r.dateCreated == Some(if t.dateCreated.Some? then t.dateCreated.value else now)
    ensures r.status == Some(if t.status.Some? then t.status.value else PENDING)
    ensures r.priority == Some(if t.priority.Some? then t.priority.value else LOW)
    ensures !r.deleted
    ensures r.(dateCreated := t.dateCreated, status := t.status, priority := t.priority, deleted := t.deleted) == t
  {
    t.(dateCreated := if t.dateCreated.None? then Some(now) else t.dateCreated,
       status := if t.status.None? then Some(PENDING) else t.status,
       priority := if t.priority.None? then Some(LOW) else t.priority,
       deleted := false)
  }

  /** Running prePersist a second time changes nothing, whatever the clock says. */
  lemma PrePersistIdempotent(t: TaskState, now: Millis, later: Millis)
    ensures PrePersisted(PrePersisted(t, now), later) == PrePersisted(t, now)
  {
  }

  /** The state after markAsCompleted, or the exception it throws. */
  function MarkedCompleted(t: TaskState): (r: Outcome<TaskState>)
    ensures r.Err? <==> t.status == Some(COMPLETED)
    ensures r.Err? ==> r.error == TaskAlreadyCompleted("Task is already completed")
    ensures r.Ok? ==> r.value.status == Some(COMPLETED) && r.value.(status := t.status) == t
  {
    if t.status == Some(COMPLETED) then Err(TaskAlreadyCompleted("Task is already completed"))
    else Ok(t.(status := Some(COMPLETED)))
  }

  /** A managed Task object, whose lifecycle methods assign its fields in place. */
  class Task {
    var id: Option<int>
    var title: Option<string>
    var description: Option<string>
    var dateCreated: Option<Millis>
    var priority: Option<Priority>
    var deadline: Option<Millis>
    var status: Option<Status>
    var deleted: bool
    var boardOrder: Option<int>
    var recurrenceType: Option<RecurrenceType>
    var recurrenceInterval: Option<int>
    var recurrenceEndAt: Option<Millis>
    var recurrenceGroupId: Option<string>

    /** The column values of this object. */
    function State(): TaskState
      reads this
    {
      TaskState(id, title, description, dateCreated, priority, deadline, status, deleted,
        boardOrder, recurrenceType, recurrenceInterval, recurrenceEndAt, recurrenceGroupId)
    }

    /** The all-arguments constructor. */
    constructor (s: TaskState)
      ensures State() == s
    {
      id, title, description, dateCreated := s.id, s.title, s.description, s.dateCreated;
      priority, deadline, status, deleted := s.priority, s.deadline, s.status, s.deleted;
      boardOrder, recurrenceType, recurrenceInterval := s.boardOrder, s.recurrenceType, s.recurrenceInterval;
      recurrenceEndAt, recurrenceGroupId := s.recurrenceEndAt, s.recurrenceGroupId;
    }

    /** The @PrePersist callback; now is the value LocalDateTime.now() returns. */
    method PrePersist(now: Millis)
      modifies this
      ensures State() == PrePersisted(old(State()), now)
    {
      if dateCreated.None? {
        dateCreated := Some(now);
      }
      if status.None? {
        status := Some(PENDING);
      }
      if priority.None? {
        priority := Some(LOW);
      }
      deleted := false;
    }

    /** markAsCompleted; a thrown exception is returned as Err and leaves the object as it was. */
    method MarkAsCompleted() returns (r: Outcome<()>)
      modifies this
      ensures MarkedCompleted(old(State())).Err? ==> r == Err(MarkedCompleted(old(State())).error) && State() == old(State())
      ensures MarkedCompleted(old(State())).Ok? ==> r == Ok(()) && State() == MarkedCompleted(old(State())).value
    {
      if status == Some(COMPLETED) {
        return Err(TaskAlreadyCompleted("Task is already completed"));
      }
      status := Some(COMPLETED);
      r := Ok(());
    }
  }
}
