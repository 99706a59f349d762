/** What the TaskServiceImpl operations promise, stated over their transaction functions. */
module ServiceProperties {
  import opened Wrappers
  import opened Text
  import opened TaskExceptions
  import opened TaskEntity
  import opened TaskMapper
  import opened RecurrenceService
  import opened ServiceRules
  import opened TaskService

  // ----- createTask -----

  /** A created task is a new row at the next id, with every default applied and nothing else changed. */
  lemma CreateDefaults(s: Store, q: TaskRequest, env: Env)
    requires Created(s, q, env).Ok?
    ensures var (after, response) := Created(s, q, env).value;
      var e := after.rows[s.nextId];
      && after.nextId == s.nextId + 1
      && after.rows == s.rows[s.nextId := e]
      && s.nextId in after.rows
      && e.id == Some(s.nextId) && !e.deleted && e.dateCreated == Some(env.now)
      && e.title == q.title && e.description == q.description
      && env.hooks.statusSafe(q.status).Ok? && e.status == Some(env.hooks.statusSafe(q.status).value.GetOr(TODO))
      && env.hooks.prioritySafe(q.priority).Ok? && e.priority == Some(env.hooks.prioritySafe(q.priority).value.GetOr(LOW))
      && ConvertRecurrenceType(q.recurrenceType).Ok? && e.recurrenceType == Some(ConvertRecurrenceType(q.recurrenceType).value)
      && e.recurrenceInterval == Some(if q.recurrenceInterval.Some? && q.recurrenceInterval.value >= 1 then q.recurrenceInterval.value else 1)
      && e.boardOrder == (if q.boardOrder.Some? then q.boardOrder else Some(NextBoardOrder(s.rows, e.status.value)))
      && e.recurrenceEndAt == q.recurrenceEndAt && e.recurrenceGroupId == q.recurrenceGroupId
      && response == ToResponse(Some(e)).value
  {
  }

  /**
   * A recurring create request is only accepted when it carries a deadline and
   * an end date not before that deadline; the stored deadline is what the
   * updateDeadline helper makes of it afterwards.
   */
  lemma CreateRecurringNeedsDeadline(s: Store, q: TaskRequest, env: Env)
    requires Created(s, q, env).Ok?
    requires ConvertRecurrenceType(q.recurrenceType).Ok? && ConvertRecurrenceType(q.recurrenceType).value != NONE
    ensures q.deadline.Some?
    ensures q.recurrenceEndAt.None? || q.recurrenceEndAt.value >= q.deadline.value
  {
  }

  /** The rejections of createTask for a recurring request: no deadline, or an end date before it. */
  lemma CreateRejectsBadRecurrence(s: Store, q: TaskRequest, env: Env)
    requires ToEntity(Some(q), env.hooks).Ok?
    requires ConvertRecurrenceType(q.recurrenceType).Ok? && ConvertRecurrenceType(q.recurrenceType).value != NONE
    ensures q.deadline.None? ==> Created(s, q, env) == Illegal("Recurring tasks must have a deadline")
    ensures q.deadline.Some? && q.recurrenceEndAt.Some? && q.recurrenceEndAt.value < q.deadline.value ==>
      Created(s, q, env) == Illegal("Recurrence end date must not be before deadline")
  {
  }

  lemma CreatePreservesValidStore(s: Store, q: TaskRequest, env: Env)
    requires ValidStore(s) && Created(s, q, env).Ok?
    ensures ValidStore(Created(s, q, env).value.0)
  {
    CreateDefaults(s, q, env);
  }

  // ----- updateTask -----

  /** updateTask on a DONE task with a parsable, different status is refused with the lock message. */
  lemma UpdateDoneLock(s: Store, id: int, q: TaskRequest, env: Env)
    requires Active(s.rows, id) && NormalizeLegacyStatus(s.rows[id]).status == Some(DONE)
    requires q.status.Some? && ParseStatus(q.status).Ok? && ParseStatus(q.status).value != DONE
    requires UpdatedEntity(q, NormalizeLegacyStatus(s.rows[id])).Ok?
    ensures Updated(s, id, q, env) == Illegal("Status cannot be changed once task is DONE")
  {
  }

  /**
   * Without a requested status, updateTask never fails on the DONE lock: every
   * refusal before the deadline step comes from the lookup, the mapper or the
   * recurrence checks.
   */
  lemma UpdateWithoutStatusNeverLocked(s: Store, id: int, q: TaskRequest)
    requires q.status.None?
    ensures UpdatedBeforeDeadline(s, id, q) != Illegal("Status cannot be changed once task is DONE")
  {
    var lock: string := "Status cannot be changed once task is DONE";
    if Active(s.rows, id) {
      var t0 := NormalizeLegacyStatus(s.rows[id]);
      var mapped := UpdatedEntity(q, t0);
      if mapped.Err? {
        var m := mapped.error.message.value;
        assert m[0] == 'N' && lock[0] == 'S';
      } else {
        var t3 := NormalizeRecurrenceDefaults(NormalizeLegacyStatus(mapped.value));
        if ValidateRecurrence(t3).Err? {
          var m := ValidateRecurrence(t3).error.message.value;
          assert |m| != |lock|;
        }
      }
    }
  }

  /**
   * After updateTask the row is appended to its column exactly when a status was
   * sent, it differs from the previous one and no board order was sent; otherwise
   * its order is the sent one or the old one.
   */
  lemma UpdateBoardOrderRule(s: Store, id: int, q: TaskRequest, env: Env)
    requires Updated(s, id, q, env).Ok?
    ensures Active(s.rows, id)
    ensures var before := NormalizeLegacyStatus(s.rows[id]);
      var row := Updated(s, id, q, env).value.0.rows[id];
      && row.status.Some? == (before.status.Some? || q.status.Some?)
      && (q.status.Some? && before.status != row.status && q.boardOrder.None? ==>
            row.boardOrder == Some(NextBoardOrder(s.rows[id := row.(deadline := UpdatedBeforeDeadline(s, id, q).value.deadline, boardOrder := UpdatedEntity(q, before).value.boardOrder)], row.status.value)))
      && (!(q.status.Some? && before.status != row.status && q.boardOrder.None?) ==>
            row.boardOrder == (if q.boardOrder.Some? then q.boardOrder else s.rows[id].boardOrder))
  {
  }

  /** updateTask writes only its own row and keeps its identity, creation time and active flag. */
  lemma UpdateTouchesOnlyItsRow(s: Store, id: int, q: TaskRequest, env: Env)
    requires Updated(s, id, q, env).Ok?
    ensures var after := Updated(s, id, q, env).value.0;
      && Active(s.rows, id)
      && after.nextId == s.nextId
      && after.rows.Keys == s.rows.Keys
      && (forall k | k in s.rows && k != id :: after.rows[k] == s.rows[k])
      && after.rows[id].id == s.rows[id].id
      && after.rows[id].dateCreated == s.rows[id].dateCreated
      && !after.rows[id].deleted
      && after.rows[id].status !in {Some(PENDING), Some(COMPLETED)}
  {
  }

  // ----- deleteTask and restoreTask -----

  /** Deleting a deleted task again is reported and changes nothing. */
  lemma DeleteTwiceReported(s: Store, id: int)
    requires Deleted(s, id).Ok?
    ensures Deleted(Deleted(s, id).value.0, id) == Err(TaskAlreadyDeleted("Task already successfully deleted"))
  {
  }

  /**
   * Restoring a task just deleted brings the row back active with its legacy status
   * normalised; its board order is kept when it had one and only filled in otherwise.
   */
  lemma DeleteThenRestore(s: Store, id: int)
    requires Deleted(s, id).Ok?
    ensures var deleted := Deleted(s, id).value.0;
      var restored := Restored(deleted, id);
      && restored.Ok?
      && restored.value.0.nextId == s.nextId
      && restored.value.0.rows.Keys == s.rows.Keys
      && restored.value.0.rows[id].(boardOrder := s.rows[id].boardOrder) == NormalizeLegacyStatus(s.rows[id])
      && restored.value.0.rows[id].boardOrder.Some?
      && (s.rows[id].boardOrder.Some? ==> restored.value.0.rows == s.rows[id := NormalizeLegacyStatus(s.rows[id])])
  {
  }

  /** A restored row is active, normalised and placed; only its deleted flag, legacy status and missing order change. */
  lemma RestoreContract(s: Store, id: int)
    requires Restored(s, id).Ok?
    ensures var row := Restored(s, id).value.0.rows[id];
      && id in s.rows && s.rows[id].deleted
      && !row.deleted && row.boardOrder.Some?
      && row.status !in {Some(PENDING), Some(COMPLETED)}
      && row.(boardOrder := s.rows[id].boardOrder, deleted := true) == NormalizeLegacyStatus(s.rows[id])
      && (s.rows[id].boardOrder.Some? ==> row.boardOrder == s.rows[id].boardOrder)
      && Restored(s, id).value.0 == s.(rows := s.rows[id := row])
  {
  }

  lemma DeletePreservesValidStore(s: Store, id: int)
    requires ValidStore(s) && Deleted(s, id).Ok?
    ensures ValidStore(Deleted(s, id).value.0)
  {
  }

  lemma RestorePreservesValidStore(s: Store, id: int)
    requires ValidStore(s) && Restored(s, id).Ok?
    ensures ValidStore(Restored(s, id).value.0)
  {
  }

  // ----- updateTaskStatus -----

  /** A Kanban move out of DONE is refused and changes nothing; DONE to DONE is allowed. */
  lemma StatusMoveDoneLock(s: Store, id: int, q: StatusUpdateRequest)
    requires Active(s.rows, id) && NormalizeLegacyStatus(s.rows[id]).status == Some(DONE)
    requires ParseStatus(q.status).Ok?
    ensures StatusUpdated(s, id, q).Ok? <==> ParseStatus(q.status).value == DONE
    ensures ParseStatus(q.status).value != DONE ==> StatusUpdated(s, id, q) == Illegal("Status cannot be changed once task is DONE")
  {
  }

  /**
   * A Kanban move sets the parsed status, keeps a positive requested order and
   * otherwise appends the card after every other card of the target column.
   */
  lemma StatusMoveBoardOrder(s: Store, id: int, q: StatusUpdateRequest)
    requires StatusUpdated(s, id, q).Ok?
    ensures var after := StatusUpdated(s, id, q).value.0;
      var row := after.rows[id];
      && row.status == Some(ParseStatus(q.status).value)
      && (q.boardOrder.Some? && q.boardOrder.value > 0 ==> row.boardOrder == q.boardOrder)
      && (!(q.boardOrder.Some? && q.boardOrder.value > 0) ==>
            row.boardOrder.Some?
            && forall k | k in s.rows && k != id && !s.rows[k].deleted && s.rows[k].status == row.status && s.rows[k].boardOrder.Some? ::
                 s.rows[k].boardOrder.value < row.boardOrder.value)
      && row.(status := s.rows[id].status, boardOrder := s.rows[id].boardOrder) == s.rows[id]
      && after == s.(rows := s.rows[id := row])
  {
    var st := ParseStatus(q.status).value;
    var t1 := NormalizeLegacyStatus(s.rows[id]).(status := Some(st));
    var rows1 := s.rows[id := t1];
    forall k | k in s.rows && k != id && !s.rows[k].deleted && s.rows[k].status == Some(st) && s.rows[k].boardOrder.Some?
      ensures s.rows[k].boardOrder.value in ColumnOrders(rows1, st)
    {
      assert rows1[k] == s.rows[k];
    }
  }

  // ----- reorderBoard -----

  /** The conditions under which reorderBoard accepts its request. */
  predicate ReorderAcceptable(s: Store, q: ReorderRequest) {
    q.orderedTaskIds.Some? && |q.orderedTaskIds.value| > 0 && NoDuplicates(q.orderedTaskIds.value)
    && ParseStatus(q.status).Ok?
    && forall i | 0 <= i < |q.orderedTaskIds.value| ::
         Active(s.rows, q.orderedTaskIds.value[i])
         && NormalizeLegacyStatus(s.rows[q.orderedTaskIds.value[i]]).status == Some(ParseStatus(q.status).value)
  }

  /**
   * reorderBoard succeeds exactly on an acceptable request, and each rejection
   * carries the message of the first check that fails.
   */
  lemma ReorderAcceptsExactly(s: Store, q: ReorderRequest)
    ensures Reordered(s, q).Ok? <==> ReorderAcceptable(s, q)
    ensures q.orderedTaskIds.None? || q.orderedTaskIds.value == [] ==> Reordered(s, q) == Illegal("orderedTaskIds must not be empty")
    ensures q.orderedTaskIds.Some? && q.orderedTaskIds.value != [] && !NoDuplicates(q.orderedTaskIds.value) ==>
      Reordered(s, q) == Illegal("orderedTaskIds must not contain duplicates")
    ensures (q.orderedTaskIds.Some? && q.orderedTaskIds.value != [] && NoDuplicates(q.orderedTaskIds.value)
             && ParseStatus(q.status).Ok?
             && exists i | 0 <= i < |q.orderedTaskIds.value| :: !Active(s.rows, q.orderedTaskIds.value[i])) ==>
      Reordered(s, q) == Illegal("orderedTaskIds contains unknown task IDs")
    ensures (q.orderedTaskIds.Some? && q.orderedTaskIds.value != [] && NoDuplicates(q.orderedTaskIds.value)
             && ParseStatus(q.status).Err?) ==>
      Reordered(s, q) == Err(ParseStatus(q.status).error)
    ensures (q.orderedTaskIds.Some? && q.orderedTaskIds.value != [] && NoDuplicates(q.orderedTaskIds.value)
             && ParseStatus(q.status).Ok?
             && (forall i | 0 <= i < |q.orderedTaskIds.value| :: Active(s.rows, q.orderedTaskIds.value[i]))
             && exists i | 0 <= i < |q.orderedTaskIds.value| ::
                  NormalizeLegacyStatus(s.rows[q.orderedTaskIds.value[i]]).status != Some(ParseStatus(q.status).value)) ==>
      Reordered(s, q) == Illegal("All tasks must belong to status " + StatusName(ParseStatus(q.status).value))
  {
    if q.orderedTaskIds.Some? && q.orderedTaskIds.value != [] {
      var ids := q.orderedTaskIds.value;
      UniqueSizeIffNoDuplicates(ids);
      CountActiveIffAll(s.rows, ids);
    }
  }

  /** An accepted reorder numbers exactly the listed tasks 1..n in list order and touches nothing else. */
  lemma ReorderAssignsPositions(s: Store, q: ReorderRequest)
    requires Reordered(s, q).Ok?
    ensures ReorderAcceptable(s, q)
    ensures var ids, after := q.orderedTaskIds.value, Reordered(s, q).value.0;
      && after.nextId == s.nextId
      && after.rows.Keys == s.rows.Keys
      && (forall i | 0 <= i < |ids| :: after.rows[ids[i]] == NormalizeLegacyStatus(s.rows[ids[i]]).(boardOrder := Some(i + 1)))
      && (forall k | k in s.rows && k !in ids :: after.rows[k] == s.rows[k])
  {
    ReorderAcceptsExactly(s, q);
    var ids := q.orderedTaskIds.value;
    assert Reordered(s, q).value.0 == s.(rows := Reassigned(s.rows, ids, |ids|));
    ReassignedPositions(s.rows, ids);
  }

  lemma ReassignedPositions(rows: Rows, ids: seq<int>)
    requires NoDuplicates(ids)
    ensures var after := Reassigned(rows, ids, |ids|);
      && after.Keys == rows.Keys
      && (forall i | 0 <= i < |ids| && ids[i] in rows :: after[ids[i]] == NormalizeLegacyStatus(rows[ids[i]]).(boardOrder := Some(i + 1)))
      && (forall k | k in rows && k !in ids :: after[k] == rows[k])
  {
    assert ids[..|ids|] == ids;
    forall i | 0 <= i < |ids|
      ensures IndexOf(ids, ids[i]) == i
    {
      var j := IndexOf(ids, ids[i]);
      assert j == i;
    }
  }

  lemma ReorderPreservesValidStore(s: Store, q: ReorderRequest)
    requires ValidStore(s) && Reordered(s, q).Ok?
    ensures ValidStore(Reordered(s, q).value.0)
  {
    ReorderAssignsPositions(s, q);
  }

  // ----- markTaskAsCompleted -----

  /** Whether completing the active task id spawns a follow-up. */
  predicate Spawns(s: Store, id: int, env: Env)
    requires Active(s.rows, id)
  {
    var cur := NormalizeLegacyStatus(s.rows[id]);
    var next := ComputeNextDeadline(cur.deadline, cur.recurrenceType, cur.recurrenceInterval.GetOr(1), env.plusMonths);
    cur.recurrenceType.Some? && cur.recurrenceType != Some(NONE) && CanCreateNext(Some(cur), next)
  }

  /**
   * Completion marks the row COMPLETED and adds at most one row, the follow-up,
   * exactly when the task recurs and the end-date gate lets the next deadline through.
   * Apart from its status the completed row only gains a group id, and only when it spawns.
   */
  lemma CompletionSpawnsAtMostOne(s: Store, id: int, env: Env)
    requires ValidStore(s)
    requires Completed(s, id, env).Ok?
    ensures Active(s.rows, id)
    ensures var after := Completed(s, id, env).value.0;
      var cur := NormalizeLegacyStatus(s.rows[id]);
      && after.nextId == (if Spawns(s, id, env) then s.nextId + 1 else s.nextId)
      && after.rows.Keys == (if Spawns(s, id, env) then s.rows.Keys + {s.nextId} else s.rows.Keys)
      && (forall k | k in s.rows && k != id :: after.rows[k] == s.rows[k])
      && after.rows[id].status == Some(COMPLETED)
      && after.rows[id].(status := cur.status, recurrenceGroupId := cur.recurrenceGroupId) == cur
      && (!Spawns(s, id, env) ==> after.rows[id].recurrenceGroupId == cur.recurrenceGroupId)
  {
    assert s.nextId !in s.rows;
  }

  /**
   * The follow-up is a fresh TODO row at the next id, placed at the end of the TODO
   * column, copying title, description, priority (LOW when absent) and the recurrence
   * settings, and sharing the group id now saved on the completed row: the old one,
   * or "rec-" and a fresh UUID when it was absent or blank.
   */
  lemma FollowUpInstance(s: Store, id: int, env: Env)
    requires ValidStore(s)
    requires Completed(s, id, env).Ok?
    requires Active(s.rows, id) && Spawns(s, id, env)
    ensures var after := Completed(s, id, env).value.0;
      var cur := NormalizeLegacyStatus(s.rows[id]);
      var parent := after.rows[id];
      var child := after.rows[s.nextId];
      && s.nextId in after.rows
      && child.id == Some(s.nextId) && child.status == Some(TODO) && !child.deleted
      && child.dateCreated == Some(env.now)
      && child.title == parent.title && child.description == parent.description
      && child.priority == Some(parent.priority.GetOr(LOW))
      && child.recurrenceType == parent.recurrenceType && child.recurrenceInterval == parent.recurrenceInterval
      && child.recurrenceEndAt == parent.recurrenceEndAt
      && child.recurrenceGroupId == parent.recurrenceGroupId
      && parent.recurrenceGroupId == (if cur.recurrenceGroupId.None? || IsBlank(cur.recurrenceGroupId.value)
                                      then Some("rec-" + env.uuid) else cur.recurrenceGroupId)
      && child.boardOrder == Some(NextBoardOrder(s.rows[id := parent], TODO))
  {
    assert s.nextId !in s.rows;
    var cur := NormalizeLegacyStatus(s.rows[id]);
    var done := MarkedCompleted(cur).value;
    var s1 := s.(rows := s.rows[id := done]);
    var spawned := SpawnNext(s1, id, done, env).value;
    assert Completed(s, id, env).value.0 == spawned.0;
    var parent := spawned.1;
    assert spawned.0.rows[id] == parent;
    assert s1.rows[id := parent] == s.rows[id := parent];
  }

  lemma CompletePreservesValidStore(s: Store, id: int, env: Env)
    requires ValidStore(s) && Completed(s, id, env).Ok?
    ensures ValidStore(Completed(s, id, env).value.0)
  {
    CompletionSpawnsAtMostOne(s, id, env);
    if Spawns(s, id, env) {
      FollowUpInstance(s, id, env);
    }
  }

  /**
   * As written, the lookup has already turned a stored COMPLETED into DONE, so the
   * entity's already-completed guard can never fire for a task the service finds.
   */
  lemma LookupHidesCompletedStatus(s: Store, id: int)
    requires FindActiveTask(s.rows, id).Ok?
    ensures MarkedCompleted(FindActiveTask(s.rows, id).value).Ok?
  {
  }

  /** A completed daily task for the example: stored COMPLETED, not deleted, no end date. */
  function CompletedDailyStore(): Store {
    Store(map[1 := EmptyTask.(id := Some(1), status := Some(COMPLETED), deadline := Some(0),
      recurrenceType := Some(DAILY), recurrenceInterval := Some(1), recurrenceGroupId := Some("g"))], 2)
  }

  /** Completing the already completed daily task succeeds again and spawns a second follow-up. */
  lemma RecompletionSpawnsAgain(now: int, uuid: string, plusMonths: (int, int) -> int, hooks: EntityHooks)
    ensures var env := Env(now, uuid, plusMonths, hooks, (t: TaskState, d: Option<int>) => Ok(d));
      && Completed(CompletedDailyStore(), 1, env).Ok?
      && Completed(CompletedDailyStore(), 1, env).value.0.nextId == 3
  {
    var env := Env(now, uuid, plusMonths, hooks, (t: TaskState, d: Option<int>) => Ok(d));
    var s := CompletedDailyStore();
    assert Spawns(s, 1, env);
    assert !IsBlank("g") by { assert !IsJavaWhitespace("g"[0]); }
  }

  /** Corrected: once completed through CompletedOnce, a task cannot be completed again. */
  lemma CompletedOnceRefusesRecompletion(s: Store, id: int, env: Env)
    requires ValidStore(s) && CompletedOnce(s, id, env).Ok?
    ensures CompletedOnce(CompletedOnce(s, id, env).value.0, id, env) == Err(TaskAlreadyCompleted("Task is already completed"))
  {
    assert CompletedOnce(s, id, env) == Completed(s, id, env);
    CompletionSpawnsAtMostOne(s, id, env);
  }

  /** Corrected: on a task not yet completed, CompletedOnce does exactly what the service does. */
  lemma CompletedOnceAgreesOtherwise(s: Store, id: int, env: Env)
    requires Active(s.rows, id) && NormalizeLegacyStatus(s.rows[id]).status != Some(DONE)
    ensures CompletedOnce(s, id, env) == Completed(s, id, env)
  {
  }
}
