/**
 * The private rules of TaskServiceImpl: status parsing, legacy-status and recurrence
 * normalisation, recurrence validation, the DONE lock, the next board order of a
 * column, and sort-parameter sanitising. The repository is a map from id to row.
 */
module ServiceRules {
  import opened Wrappers
  import opened Text
  import opened TaskExceptions
  import opened TaskEntity
  import opened TaskMapper
  import opened ExceptionHandler

  /** The task table: id to row, soft-deleted rows included. */
  type Rows = map<int, TaskState>

  /** parseStatus: required, upper-cased, legacy aliases accepted. */
  function ParseStatus(value: Option<string>): (r: Outcome<Status>)
    ensures value.None? || IsBlank(value.value) ==> r == Illegal("Status is required")
    ensures r.Ok? ==> r.value in {TODO, IN_PROGRESS, DONE}
    ensures value.Some? && !IsBlank(value.value) ==>
      (r.Ok? <==> ToUpper(value.value) in {"PENDING", "COMPLETED", "TODO", "IN_PROGRESS", "DONE"})
    ensures r.Ok? ==> StatusName(r.value) == KanbanAlias(ToUpper(value.value))
    ensures value.Some? && !IsBlank(value.value) && r.Err? ==> r == Illegal(NoEnumConstant("Status", ToUpper(value.value)))
  {
    if value.None? || IsBlank(value.value) then Illegal("Status is required")
    else StatusValueOf(KanbanAlias(ToUpper(value.value)))
  }

  /** What the client sees when parseStatus throws: both messages pass the handler unchanged. */
  lemma ParseStatusErrorsReportedVerbatim(value: Option<string>)
    requires ParseStatus(value).Err?
    ensures Handle(ParseStatus(value).error).body.message == ParseStatus(value).error.message
  {
    if value.None? || IsBlank(value.value) {
      StatusRequiredKept();
    } else {
      ToUpperIdempotent(value.value);
      UnknownEnumMessages(ToUpper(value.value));
    }
  }

  /** normalizeLegacyStatus: PENDING becomes TODO, COMPLETED becomes DONE, nothing else changes. */
  function NormalizeLegacyStatus(t: TaskState): (r: TaskState)
    ensures r.status !in {Some(PENDING), Some(COMPLETED)}
    ensures t.status == Some(PENDING) ==> r.status == Some(TODO)
    ensures t.status == Some(COMPLETED) ==> r.status == Some(DONE)
    ensures t.status !in {Some(PENDING), Some(COMPLETED)} ==> r == t
    ensures r.(status := t.status) == t
  {
    if t.status == Some(PENDING) then t.(status := Some(TODO))
    else if t.status == Some(COMPLETED) then t.(status := Some(DONE))
    else t
  }

  /** Normalising in memory never changes what the API reports as the status. */
  lemma NormalizeAgreesWithResponse(t: TaskState)
    ensures NormalizeStatus(NormalizeLegacyStatus(t).status) == NormalizeStatus(t.status)
    ensures NormalizeLegacyStatus(NormalizeLegacyStatus(t)) == NormalizeLegacyStatus(t)
  {
  }

  /** normalizeRecurrenceDefaults: a missing type becomes NONE, a missing or non-positive interval 1. */
  function NormalizeRecurrenceDefaults(t: TaskState): (r: TaskState)
    ensures r.recurrenceType == Some(t.recurrenceType.GetOr(NONE))
    ensures t.recurrenceInterval.Some? && t.recurrenceInterval.value >= 1 ==> r.recurrenceInterval == t.recurrenceInterval
    ensures !(t.recurrenceInterval.Some? && t.recurrenceInterval.value >= 1) ==> r.recurrenceInterval == Some(1)
    ensures r.(recurrenceType := t.recurrenceType, recurrenceInterval := t.recurrenceInterval) == t
  {
    var t1 := if t.recurrenceType.None? then t.(recurrenceType := Some(NONE)) else t;
    if t1.recurrenceInterval.None? || t1.recurrenceInterval.value < 1 then t1.(recurrenceInterval := Some(1)) else t1
  }

  /** A recurring task needs a deadline, and its end date may not come before that deadline. */
  predicate RecurrenceValid(t: TaskState) {
    (t.recurrenceInterval.None? || t.recurrenceInterval.value >= 1)
    && (t.recurrenceType.None? || t.recurrenceType == Some(NONE)
        || (t.deadline.Some? && (t.recurrenceEndAt.None? || t.recurrenceEndAt.value >= t.deadline.value)))
  }

  /** validateRecurrence: the checks in the order they throw. */
  function ValidateRecurrence(t: TaskState): (r: Outcome<()>)
    ensures r.Ok? <==> RecurrenceValid(t)
    ensures t.recurrenceInterval.Some? && t.recurrenceInterval.value < 1 ==> r == Illegal("Recurrence interval must be at least 1")
    ensures ((t.recurrenceInterval.None? || t.recurrenceInterval.value >= 1) && t.recurrenceType.Some?
             && t.recurrenceType != Some(NONE) && t.deadline.None?) ==> r == Illegal("Recurring tasks must have a deadline")
    ensures ((t.recurrenceInterval.None? || t.recurrenceInterval.value >= 1) && t.recurrenceType.Some?
             && t.recurrenceType != Some(NONE) && t.deadline.Some?
             && t.recurrenceEndAt.Some? && t.recurrenceEndAt.value < t.deadline.value) ==>
      r == Illegal("Recurrence end date must not be before deadline")
  {
    if t.recurrenceInterval.Some? && t.recurrenceInterval.value < 1 then Illegal("Recurrence interval must be at least 1")
    else if t.recurrenceType.Some? && t.recurrenceType != Some(NONE) then
      if t.deadline.None? then Illegal("Recurring tasks must have a deadline")
      else if t.recurrenceEndAt.Some? && t.recurrenceEndAt.value < t.deadline.value then
        Illegal("Recurrence end date must not be before deadline")
      else Ok(())
    else Ok(())
  }

  /** After the defaults are applied the interval check can no longer fail. */
  lemma DefaultsSatisfyIntervalCheck(t: TaskState)
    ensures ValidateRecurrence(NormalizeRecurrenceDefaults(t)) != Illegal("Recurrence interval must be at least 1")
  {
  }

  /** enforceDoneStatusLock: a DONE task may only be asked to stay DONE; no request always passes. */
  function EnforceDoneStatusLock(previous: Option<Status>, requested: Option<Status>): (r: Outcome<()>)
    ensures r.Err? <==> requested.Some? && previous == Some(DONE) && requested != Some(DONE)
    ensures r.Err? ==> r == Illegal("Status cannot be changed once task is DONE")
  {
    if requested.None? then Ok(())
    else if previous == Some(DONE) && requested != Some(DONE) then Illegal("Status cannot be changed once task is DONE")
    else Ok(())
  }

  /** findActiveTask: the row must exist and not be soft-deleted; it is returned normalised. */
  function FindActiveTask(rows: Rows, id: int): (r: Outcome<TaskState>)
    ensures r.Ok? <==> id in rows && !rows[id].deleted
    ensures r.Ok? ==> r.value == NormalizeLegacyStatus(rows[id])
    ensures r.Err? ==> r == Err(ResourceNotFound("Task not found with id: " + IntToString(id)))
  {
    if id in rows && !rows[id].deleted then Ok(NormalizeLegacyStatus(rows[id]))
    else Err(ResourceNotFound("Task not found with id: " + IntToString(id)))
  }

  /** The non-null board orders of the active rows in a status column. */
  function ColumnOrders(rows: Rows, st: Status): set<int> {
    set id | id in rows && !rows[id].deleted && rows[id].status == Some(st) && rows[id].boardOrder.Some? :: rows[id].boardOrder.value
  }

  lemma {:induction false} MaxExists(s: set<int>, x: int)
    requires x in s
    ensures exists m :: m in s && forall y | y in s :: y <= m
    decreases |s|
  {
    var rest := s - {x};
    if exists z :: z in rest {
      var z :| z in rest;
      MaxExists(rest, z);
      var m :| m in rest && forall y | y in rest :: y <= m;
      var top := if x > m then x else m;
      forall y | y in s
        ensures y <= top
      {
        if y != x {
          assert y in rest;
        }
      }
    } else {
      assert x in s && forall y | y in s :: y <= x;
    }
  }

  /** The largest element of a non-empty set. */
  function MaxOf(s: set<int>): (m: int)
    requires exists x :: x in s
    ensures m in s && forall y | y in s :: y <= m
  {
    var x :| x in s;
    MaxExists(s, x);
    var m :| m in s && forall y | y in s :: y <= m;
    m
  }

  /**
   * nextBoardOrder: one more than the highest board order of the column. The query's
   * top row under a descending sort is the highest non-null order (NULL sorts last
   * there); a column without one yields 1, either because it is empty or because its
   * top row has a null order, which counts as 0.
   */
  function NextBoardOrder(rows: Rows, st: Status): (r: int)
    ensures ColumnOrders(rows, st) == {} ==> r == 1
    ensures ColumnOrders(rows, st) != {} ==> r - 1 in ColumnOrders(rows, st)
    ensures forall o | o in ColumnOrders(rows, st) :: o < r
  {
    var orders := ColumnOrders(rows, st);
    if exists o :: o in orders then MaxOf(orders) + 1 else 1
  }

  /** Soft-deleted rows and rows of other columns never influence the next order. */
  lemma NextBoardOrderIgnoresOthers(rows: Rows, st: Status, id: int, t: TaskState)
    requires t.deleted || t.status != Some(st)
    requires id !in rows
    ensures NextBoardOrder(rows[id := t], st) == NextBoardOrder(rows, st)
  {
    var rows1 := rows[id := t];
    forall o | o in ColumnOrders(rows1, st)
      ensures o in ColumnOrders(rows, st)
    {
      var k :| k in rows1 && !rows1[k].deleted && rows1[k].status == Some(st) && rows1[k].boardOrder.Some? && rows1[k].boardOrder.value == o;
      assert k != id && k in rows && rows[k] == rows1[k];
    }
    forall o | o in ColumnOrders(rows, st)
      ensures o in ColumnOrders(rows1, st)
    {
      var k :| k in rows && !rows[k].deleted && rows[k].status == Some(st) && rows[k].boardOrder.Some? && rows[k].boardOrder.value == o;
      assert k in rows1 && rows1[k] == rows[k];
    }
  }

  /** In a column whose orders are all positive the next order is positive and above every order. */
  lemma NextBoardOrderAppends(rows: Rows, st: Status, id: int)
    requires forall o | o in ColumnOrders(rows, st) :: o >= 1
    requires id in rows && !rows[id].deleted && rows[id].status == Some(st) && rows[id].boardOrder.Some?
    ensures NextBoardOrder(rows, st) >= 2
    ensures rows[id].boardOrder.value < NextBoardOrder(rows, st)
  {
    assert rows[id].boardOrder.value in ColumnOrders(rows, st);
  }

  const AllowedSortFields: set<string> := {"deadline", "priority", "status", "dateCreated"}

  datatype Direction = ASC | DESC

  /** The sort field and direction getAllTasks hands to the repository. */
  function SanitizeSort(sortBy: Option<string>, sortDir: Option<string>): (r: (string, Direction))
    ensures r.0 in AllowedSortFields
    ensures sortBy.Some? && sortBy.value in AllowedSortFields ==> r.0 == sortBy.value
    ensures !(sortBy.Some? && sortBy.value in AllowedSortFields) ==> r.0 == "dateCreated"
    ensures r.1 == ASC <==> sortDir.Some? && EqualsIgnoreCase(sortDir.value, "asc")
  {
    var field := if sortBy.Some? && sortBy.value in AllowedSortFields then sortBy.value else "dateCreated";
    var dir := if sortDir.Some? && EqualsIgnoreCase(sortDir.value, "asc") then ASC else DESC;
    (field, dir)
  }

  /** Sanitising is idempotent: a sanitised field is kept, and an ASC direction stays ASC. */
  lemma SanitizeSortIdempotent(sortBy: Option<string>, sortDir: Option<string>)
    ensures var (f, d) := SanitizeSort(sortBy, sortDir);
      SanitizeSort(Some(f), Some(if d == ASC then "asc" else "desc")) == (f, d)
  {
    var (f, d) := SanitizeSort(sortBy, sortDir);
    assert ToLower("asc") == "asc";
    assert ToLower("desc") != "asc" by { assert |ToLower("desc")| == 4; }
  }
}
