/**
 * TaskServiceImpl. Each operation is first a pure function from the store before
 * the transaction to either an exception or the store after it and the response;
 * @Transactional rollback is the Err case, which never carries a store. The class
 * TaskServiceImpl then performs the same steps on its repository fields, and each
 * method is proved to commit exactly what its function describes.
 */
module TaskService {
  import opened Wrappers
  import opened Text
  import opened Time
  import opened TaskExceptions
  import opened TaskEntity
  import opened TaskMapper
  import opened RecurrenceService
  import opened ServiceRules

  /** The repository: rows by id, and the id the IDENTITY column hands out next. */
  datatype Store = Store(rows: Rows, nextId: int)

  /** Every row carries its own key as id, and every key is below the next id. */
  predicate ValidStore(s: Store) {
    forall k | k in s.rows :: s.rows[k].id == Some(k) && k < s.nextId
  }

  /**
   * What an operation gets from outside the service: the clock, a fresh random UUID,
   * LocalDateTime.plusMonths, the entity's safe setters and Task.updateDeadline, which
   * receives the entity and the requested deadline and yields the deadline it stores.
   */
  datatype Env = Env(now: Millis, uuid: string, plusMonths: (Millis, int) -> Millis, hooks: EntityHooks,
                     updateDeadline: (TaskState, Option<Millis>) -> Outcome<Option<Millis>>)

  /** TaskStatusUpdateRequest. */
  datatype StatusUpdateRequest = StatusUpdateRequest(status: Option<string>, boardOrder: Option<int>)

  /** TaskBoardReorderRequest. */
  datatype ReorderRequest = ReorderRequest(status: Option<string>, orderedTaskIds: Option<seq<int>>)

  /** The store after a call is what its function committed, or the store before it on an exception. */
  predicate Commits<T(==)>(before: Store, after: Store, spec: Outcome<(Store, T)>, r: Outcome<T>) {
    match spec
    case Ok(v) => after == v.0 && r == Ok(v.1)
    case Err(e) => after == before && r == Err(e)
  }

  // ----- createTask -----

  /** createTask: defaults, recurrence validation, board position, deadline, then persist. */
  function Created(s: Store, q: TaskRequest, env: Env): Outcome<(Store, TaskResponse)> {
    var mapped :- ToEntity(Some(q), env.hooks);
    var e0 := mapped.value;
    var e1 := if e0.dateCreated.None? then e0.(dateCreated := Some(env.now)) else e0;
    var e2 := if e1.status.None? then e1.(status := Some(TODO)) else e1;
    var e3 := NormalizeRecurrenceDefaults(e2);
    var valid :- ValidateRecurrence(e3);
    var e4 := if e3.boardOrder.None? then e3.(boardOrder := Some(NextBoardOrder(s.rows, e3.status.value))) else e3;
    var deadline :- env.updateDeadline(e4, e4.deadline);
    var saved := PrePersisted(e4.(deadline := deadline), env.now).(id := Some(s.nextId));
    Ok((Store(s.rows[s.nextId := saved], s.nextId + 1), ToResponse(Some(saved)).value))
  }

  // ----- updateTask -----

  /** The requested status of updateTask: absent stays absent, present must parse. */
  function RequestedStatus(value: Option<string>): (r: Outcome<Option<Status>>)
    ensures value.None? ==> r == Ok(None)
    ensures value.Some? ==> (r.Ok? <==> ParseStatus(value).Ok?)
    ensures value.Some? && r.Ok? ==> r.value == Some(ParseStatus(value).value)
  {
    if value.None? then Ok(None)
    else
      var parsed :- ParseStatus(value);
      Ok(Some(parsed))
  }

  /** The entity updateTask saves, before its deadline is applied. */
  function UpdatedBeforeDeadline(s: Store, id: int, q: TaskRequest): Outcome<TaskState> {
    var task :- FindActiveTask(s.rows, id);
    var t0 := NormalizeLegacyStatus(task);
    var requested :- RequestedStatus(q.status);
    var t1 :- UpdatedEntity(q, t0);
    var t2 := NormalizeLegacyStatus(t1);
    var unlocked :- EnforceDoneStatusLock(t0.status, requested);
    var t3 := NormalizeRecurrenceDefaults(t2);
    var valid :- ValidateRecurrence(t3);
    if q.status.Some? && t0.status != t3.status && q.boardOrder.None? then
      Ok(t3.(boardOrder := Some(NextBoardOrder(s.rows[id := t3], t3.status.value))))
    else Ok(t3)
  }

  /** updateTask. */
  function Updated(s: Store, id: int, q: TaskRequest, env: Env): Outcome<(Store, TaskResponse)> {
    var t4 :- UpdatedBeforeDeadline(s, id, q);
    var deadline :- env.updateDeadline(t4, q.deadline);
    var saved := t4.(deadline := deadline);
    Ok((s.(rows := s.rows[id := saved]), ToResponse(Some(saved)).value))
  }

  // ----- deleteTask and restoreTask -----

  function NotFound(id: int): Exception {
    ResourceNotFound("Task not found with id " + IntToString(id))
  }

  /** deleteTask: a missing id is not found, a deleted row is reported, otherwise only the flag flips. */
  function Deleted(s: Store, id: int): (r: Outcome<(Store, ())>)
    ensures id !in s.rows ==> r == Err(NotFound(id))
    ensures id in s.rows && s.rows[id].deleted ==> r == Err(TaskAlreadyDeleted("Task already successfully deleted"))
    ensures id in s.rows && !s.rows[id].deleted ==> r.Ok? && r.value.0 == s.(rows := s.rows[id := s.rows[id].(deleted := true)])
  {
    if id !in s.rows then Err(NotFound(id))
    else if s.rows[id].deleted then Err(TaskAlreadyDeleted("Task already successfully deleted"))
    else Ok((s.(rows := s.rows[id := s.rows[id].(deleted := true)]), ()))
  }

  /** restoreTask: only a deleted row is restored, normalised, and placed if it had no order. */
  function Restored(s: Store, id: int): (r: Outcome<(Store, TaskResponse)>)
    ensures id !in s.rows ==> r == Err(NotFound(id))
    ensures id in s.rows && !s.rows[id].deleted ==> r == Illegal("Task is not deleted")
    ensures id in s.rows && s.rows[id].deleted ==> r.Ok?
  {
    if id !in s.rows then Err(NotFound(id))
    else if !s.rows[id].deleted then Illegal("Task is not deleted")
    else
      var t := NormalizeLegacyStatus(s.rows[id]).(deleted := false);
      var placed := if t.boardOrder.None? then t.(boardOrder := Some(NextBoardOrder(s.rows[id := t], t.status.GetOr(TODO)))) else t;
      Ok((s.(rows := s.rows[id := placed]), ToResponse(Some(placed)).value))
  }

  // ----- markTaskAsCompleted -----

  /** maybeCreateNextRecurringTask, run on a store that already holds the completed row at id. */
  function SpawnNext(s: Store, id: int, current: TaskState, env: Env): Outcome<(Store, TaskState)> {
    if current.recurrenceType.None? || current.recurrenceType == Some(NONE) then Ok((s, current))
    else
      var next := ComputeNextDeadline(current.deadline, current.recurrenceType, current.recurrenceInterval.GetOr(1), env.plusMonths);
      if !CanCreateNext(Some(current), next) then Ok((s, current))
      else
        var needsGroup := current.recurrenceGroupId.None? || IsBlank(current.recurrenceGroupId.value);
        var groupId := if needsGroup then "rec-" + env.uuid else current.recurrenceGroupId.value;
        var cur := current.(recurrenceGroupId := Some(groupId));
        var rows1 := s.rows[id := cur];
        var child := EmptyTask.(title := cur.title, description := cur.description, priority := cur.priority,
          status := Some(TODO), boardOrder := Some(NextBoardOrder(rows1, TODO)), deadline := next,
          recurrenceType := cur.recurrenceType, recurrenceInterval := cur.recurrenceInterval,
          recurrenceEndAt := cur.recurrenceEndAt, recurrenceGroupId := Some(groupId), deleted := false,
          dateCreated := Some(env.now));
        var deadline :- env.updateDeadline(child, child.deadline);
        var saved := PrePersisted(child.(deadline := deadline), env.now).(id := Some(s.nextId));
        Ok((Store(rows1[s.nextId := saved], s.nextId + 1), cur))
  }

  /** The steps of markTaskAsCompleted after the lookup: complete, save, maybe spawn the next instance. */
  function CompletedFound(s: Store, id: int, found: TaskState, env: Env): Outcome<(Store, TaskResponse)> {
    var done :- MarkedCompleted(found);
    var spawned :- SpawnNext(s.(rows := s.rows[id := done]), id, done, env);
    Ok((spawned.0, ToResponse(Some(spawned.1)).value))
  }

  /** markTaskAsCompleted, as written. */
  function Completed(s: Store, id: int, env: Env): Outcome<(Store, TaskResponse)> {
    var found :- FindActiveTask(s.rows, id);
    CompletedFound(s, id, found, env)
  }

  /**
   * markTaskAsCompleted as its entity guard intends: a task that is already
   * completed (DONE once its legacy status is normalised) is refused.
   */
  function CompletedOnce(s: Store, id: int, env: Env): Outcome<(Store, TaskResponse)> {
    var found :- FindActiveTask(s.rows, id);
    if found.status == Some(DONE) then Err(TaskAlreadyCompleted("Task is already completed"))
    else CompletedFound(s, id, found, env)
  }

  // ----- updateTaskStatus -----

  /** updateTaskStatus: parse, lock, move, and keep a positive requested order or append. */
  function StatusUpdated(s: Store, id: int, q: StatusUpdateRequest): (r: Outcome<(Store, TaskResponse)>)
    ensures r.Ok? <==> FindActiveTask(s.rows, id).Ok? && ParseStatus(q.status).Ok?
                       && EnforceDoneStatusLock(NormalizeLegacyStatus(s.rows[id]).status, Some(ParseStatus(q.status).value)).Ok?
  {
    var task :- FindActiveTask(s.rows, id);
    var t0 := NormalizeLegacyStatus(task);
    var target :- ParseStatus(q.status);
    var unlocked :- EnforceDoneStatusLock(t0.status, Some(target));
    var t1 := t0.(status := Some(target));
    var t2 := if q.boardOrder.Some? && q.boardOrder.value > 0 then t1.(boardOrder := q.boardOrder)
              else t1.(boardOrder := Some(NextBoardOrder(s.rows[id := t1], target)));
    Ok((s.(rows := s.rows[id := t2]), ToResponse(Some(t2)).value))
  }

  // ----- reorderBoard -----

  predicate NoDuplicates(ids: seq<int>) {
    forall i, j | 0 <= i < j < |ids| :: ids[i] != ids[j]
  }

  /** A HashSet of the list is as large as the list exactly when the list has no duplicates. */
  lemma {:induction false} UniqueSizeIffNoDuplicates(ids: seq<int>)
    ensures |(set x | x in ids)| <= |ids|
    ensures |(set x | x in ids)| == |ids| <==> NoDuplicates(ids)
  {
    if ids != [] {
      var rest := ids[1..];
      UniqueSizeIffNoDuplicates(rest);
      assert (set x | x in ids) == {ids[0]} + (set x | x in rest);
      if ids[0] in rest {
        assert (set x | x in ids) == (set x | x in rest);
        var j :| 0 <= j < |rest| && rest[j] == ids[0];
        assert ids[0] == ids[j + 1];
      } else {
        assert NoDuplicates(ids) <==> NoDuplicates(rest) by {
          if NoDuplicates(rest) {
            forall i, j | 0 <= i < j < |ids|
              ensures ids[i] != ids[j]
            {
              if i > 0 {
                assert ids[i] == rest[i - 1] && ids[j] == rest[j - 1];
              } else {
                assert ids[j] in rest;
              }
            }
          }
          if NoDuplicates(ids) {
            forall i, j | 0 <= i < j < |rest|
              ensures rest[i] != rest[j]
            {
              assert rest[i] == ids[i + 1] && rest[j] == ids[j + 1];
            }
          }
        }
      }
    } else {
      assert (set x | x in ids) == {};
    }
  }

  predicate Active(rows: Rows, id: int) {
    id in rows && !rows[id].deleted
  }

  /** The number of listed ids that name an active row. */
  function CountActive(rows: Rows, ids: seq<int>): (n: nat)
    ensures n <= |ids|
  {
    if ids == [] then 0
    else CountActive(rows, ids[..|ids| - 1]) + (if Active(rows, ids[|ids| - 1]) then 1 else 0)
  }

  lemma {:induction false} CountActiveIffAll(rows: Rows, ids: seq<int>)
    ensures CountActive(rows, ids) == |ids| <==> forall i | 0 <= i < |ids| :: Active(rows, ids[i])
  {
    if ids != [] {
      var front := ids[..|ids| - 1];
      CountActiveIffAll(rows, front);
      assert forall i | 0 <= i < |front| :: front[i] == ids[i];
    }
  }

  /** The first position of x in ids. */
  function IndexOf(ids: seq<int>, x: int): (r: nat)
    requires x in ids
    ensures r < |ids| && ids[r] == x && x !in ids[..r]
  {
    if ids[0] == x then 0
    else
      assert x in ids[1..];
      var k := IndexOf(ids[1..], x);
      assert ids[..k + 1] == [ids[0]] + ids[1..][..k];
      k + 1
  }

  /** The rows after the first n listed ids have been given the orders 1..n, each normalised. */
  function Reassigned(rows: Rows, ids: seq<int>, n: nat): Rows
    requires n <= |ids|
  {
    map k | k in rows :: if k in ids[..n] then NormalizeLegacyStatus(rows[k]).(boardOrder := Some(IndexOf(ids, k) + 1)) else rows[k]
  }

  /** reorderBoard: the validations in the order they throw, then the new orders. */
  function Reordered(s: Store, q: ReorderRequest): Outcome<(Store, ())> {
    if q.orderedTaskIds.None? || |q.orderedTaskIds.value| == 0 then Illegal("orderedTaskIds must not be empty")
    else
      var ids := q.orderedTaskIds.value;
      if |(set x | x in ids)| != |ids| then Illegal("orderedTaskIds must not contain duplicates")
      else
        var status :- ParseStatus(q.status);
        if CountActive(s.rows, ids) != |ids| then Illegal("orderedTaskIds contains unknown task IDs")
        else if exists i | 0 <= i < |ids| :: Active(s.rows, ids[i]) && NormalizeLegacyStatus(s.rows[ids[i]]).status != Some(status) then
          Illegal("All tasks must belong to status " + StatusName(status))
        else Ok((s.(rows := Reassigned(s.rows, ids, |ids|)), ()))
  }

  lemma ReassignedStep(rows: Rows, ids: seq<int>, k: nat)
    requires k < |ids| && NoDuplicates(ids) && ids[k] in rows
    ensures Reassigned(rows, ids, k + 1) == Reassigned(rows, ids, k)[ids[k] := NormalizeLegacyStatus(rows[ids[k]]).(boardOrder := Some(k + 1))]
  {
    assert ids[..k + 1] == ids[..k] + [ids[k]];
    var i := IndexOf(ids, ids[k]);
    assert i == k;
    assert ids[k] !in ids[..k];
  }

  /** The for-loop of reorderBoard: order 1, 2, ... in list order, on the normalised rows. */
  method AssignBoardOrders(rows: Rows, ids: seq<int>) returns (r: Rows)
    requires NoDuplicates(ids)
    requires forall i | 0 <= i < |ids| :: ids[i] in rows
    ensures r == Reassigned(rows, ids, |ids|)
  {
    r := rows;
    assert r == Reassigned(rows, ids, 0);
    var order := 1;
    for k := 0 to |ids|
      invariant order == k + 1
      invariant r == Reassigned(rows, ids, k)
    {
      var task := NormalizeLegacyStatus(rows[ids[k]]);
      ReassignedStep(rows, ids, k);
      r := r[ids[k] := task.(boardOrder := Some(order))];
      order := order + 1;
    }
  }

  // ----- the repository and the service object -----

  class TaskServiceImpl {
    var rows: Rows
    var nextId: int

    function Snapshot(): Store
      reads this
    {
      Store(rows, nextId)
    }

    /** An empty table whose first IDENTITY value is 1. */
    constructor ()
      ensures Snapshot() == Store(map[], 1)
    {
      rows, nextId := map[], 1;
    }

    method CreateTask(q: TaskRequest, env: Env) returns (r: Outcome<TaskResponse>)
      modifies this
      ensures Commits(old(Snapshot()), Snapshot(), Created(old(Snapshot()), q, env), r)
    {
      var mapped := ToEntity(Some(q), env.hooks);
      if mapped.Err? {
        return Err(mapped.error);
      }
      var entity := mapped.value.value;
      if entity.dateCreated.None? {
        entity := entity.(dateCreated := Some(env.now));
      }
      if entity.status.None? {
        entity := entity.(status := Some(TODO));
      }
      entity := NormalizeRecurrenceDefaults(entity);
      var valid := ValidateRecurrence(entity);
      if valid.Err? {
        return Err(valid.error);
      }
      if entity.boardOrder.None? {
        entity := entity.(boardOrder := Some(NextBoardOrder(rows, entity.status.value)));
      }
      var deadline := env.updateDeadline(entity, entity.deadline);
      if deadline.Err? {
        return Err(deadline.error);
      }
      var managed := new Task(entity.(deadline := deadline.value));
      managed.PrePersist(env.now);
      managed.id := Some(nextId);
      var saved := managed.State();
      rows := rows[nextId := saved];
      nextId := nextId + 1;
      r := Ok(ToResponse(Some(saved)).value);
    }

    method UpdateTask(id: int, q: TaskRequest, env: Env) returns (r: Outcome<TaskResponse>)
      modifies this
      ensures Commits(old(Snapshot()), Snapshot(), Updated(old(Snapshot()), id, q, env), r)
    {
      var found := FindActiveTask(rows, id);
      if found.Err? {
        return Err(found.error);
      }
      var task := NormalizeLegacyStatus(found.value);
      var previous := task.status;
      var requested := RequestedStatus(q.status);
      if requested.Err? {
        return Err(requested.error);
      }
      var managed := new Task(task);
      var mapped := UpdateEntity(q, managed);
      if mapped.Err? {
        return Err(mapped.error);
      }
      task := NormalizeLegacyStatus(managed.State());
      var unlocked := EnforceDoneStatusLock(previous, requested.value);
      if unlocked.Err? {
        return Err(unlocked.error);
      }
      task := NormalizeRecurrenceDefaults(task);
      var valid := ValidateRecurrence(task);
      if valid.Err? {
        return Err(valid.error);
      }
      if q.status.Some? && previous != task.status && q.boardOrder.None? {
        task := task.(boardOrder := Some(NextBoardOrder(rows[id := task], task.status.value)));
      }
      var deadline := env.updateDeadline(task, q.deadline);
      if deadline.Err? {
        return Err(deadline.error);
      }
      task := task.(deadline := deadline.value);
      rows := rows[id := task];
      r := Ok(ToResponse(Some(task)).value);
    }

    method DeleteTask(id: int) returns (r: Outcome<()>)
      modifies this
      ensures Commits(old(Snapshot()), Snapshot(), Deleted(old(Snapshot()), id), r)
    {
      if id !in rows {
        return Err(NotFound(id));
      }
      var task := rows[id];
      if task.deleted {
        return Err(TaskAlreadyDeleted("Task already successfully deleted"));
      }
      rows := rows[id := task.(deleted := true)];
      r := Ok(());
    }

    method RestoreTask(id: int) returns (r: Outcome<TaskResponse>)
      modifies this
      ensures Commits(old(Snapshot()), Snapshot(), Restored(old(Snapshot()), id), r)
    {
      if id !in rows {
        return Err(NotFound(id));
      }
      var task := rows[id];
      if !task.deleted {
        return Err(IllegalArgument(Some("Task is not deleted")));
      }
      task := NormalizeLegacyStatus(task).(deleted := false);
      if task.boardOrder.None? {
        task := task.(boardOrder := Some(NextBoardOrder(rows[id := task], task.status.GetOr(TODO))));
      }
      rows := rows[id := task];
      r := Ok(ToResponse(Some(task)).value);
    }

    method MarkTaskAsCompleted(id: int, env: Env) returns (r: Outcome<TaskResponse>)
      modifies this
      ensures Commits(old(Snapshot()), Snapshot(), Completed(old(Snapshot()), id, env), r)
    {
      var found := FindActiveTask(rows, id);
      if found.Err? {
        return Err(found.error);
      }
      r := CompleteFound(id, found.value, env);
    }

    /** markTaskAsCompleted with the intended guard: a task already DONE is refused before anything is saved. */
    method MarkTaskAsCompletedOnce(id: int, env: Env) returns (r: Outcome<TaskResponse>)
      modifies this
      ensures Commits(old(Snapshot()), Snapshot(), CompletedOnce(old(Snapshot()), id, env), r)
    {
      var found := FindActiveTask(rows, id);
      if found.Err? {
        return Err(found.error);
      }
      if found.value.status == Some(DONE) {
        return Err(TaskAlreadyCompleted("Task is already completed"));
      }
      r := CompleteFound(id, found.value, env);
    }

    /** markAsCompleted on the found entity, save, then maybe create the next instance; rolled back on failure. */
    method CompleteFound(id: int, found: TaskState, env: Env) returns (r: Outcome<TaskResponse>)
      modifies this
      ensures Commits(old(Snapshot()), Snapshot(), CompletedFound(old(Snapshot()), id, found, env), r)
    {
      var managed := new Task(found);
      var marked := managed.MarkAsCompleted();
      if marked.Err? {
        return Err(marked.error);
      }
      var before := Snapshot();
      var current := managed.State();
      rows := rows[id := current];
      var spawned := MaybeCreateNextRecurringTask(id, current, env);
      if spawned.Err? {
        rows, nextId := before.rows, before.nextId;
        return Err(spawned.error);
      }
      r := Ok(ToResponse(Some(spawned.value)).value);
    }

    /** maybeCreateNextRecurringTask; yields the completed row as finally saved. */
    method MaybeCreateNextRecurringTask(id: int, current: TaskState, env: Env) returns (r: Outcome<TaskState>)
      requires id in rows && rows[id] == current
      modifies this
      ensures SpawnNext(old(Snapshot()), id, current, env).Ok? ==>
        r == Ok(SpawnNext(old(Snapshot()), id, current, env).value.1) && Snapshot() == SpawnNext(old(Snapshot()), id, current, env).value.0
      ensures SpawnNext(old(Snapshot()), id, current, env).Err? ==> r == Err(SpawnNext(old(Snapshot()), id, current, env).error)
    {
      if current.recurrenceType.None? || current.recurrenceType == Some(NONE) {
        return Ok(current);
      }
      var next := ComputeNextDeadline(current.deadline, current.recurrenceType, current.recurrenceInterval.GetOr(1), env.plusMonths);
      if !CanCreateNext(Some(current), next) {
        return Ok(current);
      }
      var cur := current;
      var groupId := if cur.recurrenceGroupId.None? then "" else cur.recurrenceGroupId.value;
      if cur.recurrenceGroupId.None? || IsBlank(groupId) {
        groupId := "rec-" + env.uuid;
        cur := cur.(recurrenceGroupId := Some(groupId));
        rows := rows[id := cur];
      } else {
        assert cur == current.(recurrenceGroupId := Some(groupId));
        assert rows[id := cur] == rows;
      }
      var child := EmptyTask.(title := cur.title, description := cur.description, priority := cur.priority,
        status := Some(TODO), boardOrder := Some(NextBoardOrder(rows, TODO)), deadline := next,
        recurrenceType := cur.recurrenceType, recurrenceInterval := cur.recurrenceInterval,
        recurrenceEndAt := cur.recurrenceEndAt, recurrenceGroupId := Some(groupId), deleted := false);
      child := child.(dateCreated := Some(env.now));
      var deadline := env.updateDeadline(child, child.deadline);
      if deadline.Err? {
        return Err(deadline.error);
      }
      var managed := new Task(child.(deadline := deadline.value));
      managed.PrePersist(env.now);
      managed.id := Some(nextId);
      rows := rows[nextId := managed.State()];
      nextId := nextId + 1;
      r := Ok(cur);
    }

    method UpdateTaskStatus(id: int, q: StatusUpdateRequest) returns (r: Outcome<TaskResponse>)
      modifies this
      ensures Commits(old(Snapshot()), Snapshot(), StatusUpdated(old(Snapshot()), id, q), r)
    {
      var found := FindActiveTask(rows, id);
      if found.Err? {
        return Err(found.error);
      }
      var task := NormalizeLegacyStatus(found.value);
      var previous := task.status;
      var target := ParseStatus(q.status);
      if target.Err? {
        return Err(target.error);
      }
      var unlocked := EnforceDoneStatusLock(previous, Some(target.value));
      if unlocked.Err? {
        return Err(unlocked.error);
      }
      task := task.(status := Some(target.value));
      if q.boardOrder.Some? && q.boardOrder.value > 0 {
        task := task.(boardOrder := q.boardOrder);
      } else {
        task := task.(boardOrder := Some(NextBoardOrder(rows[id := task], target.value)));
      }
      rows := rows[id := task];
      r := Ok(ToResponse(Some(task)).value);
    }

    method ReorderBoard(q: ReorderRequest) returns (r: Outcome<()>)
      modifies this
      ensures Commits(old(Snapshot()), Snapshot(), Reordered(old(Snapshot()), q), r)
    {
      if q.orderedTaskIds.None? || |q.orderedTaskIds.value| == 0 {
        return Illegal("orderedTaskIds must not be empty");
      }
      var ids := q.orderedTaskIds.value;
      var uniqueIds := set x | x in ids;
      if |uniqueIds| != |ids| {
        return Illegal("orderedTaskIds must not contain duplicates");
      }
      UniqueSizeIffNoDuplicates(ids);
      var status := ParseStatus(q.status);
      if status.Err? {
        return Err(status.error);
      }
      if CountActive(rows, ids) != |ids| {
        return Illegal("orderedTaskIds contains unknown task IDs");
      }
      CountActiveIffAll(rows, ids);
      if exists i | 0 <= i < |ids| :: Active(rows, ids[i]) && NormalizeLegacyStatus(rows[ids[i]]).status != Some(status.value) {
        return Illegal("All tasks must belong to status " + StatusName(status.value));
      }
      rows := AssignBoardOrders(rows, ids);
      r := Ok(());
    }
  }
}
