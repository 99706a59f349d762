/**
 * The undo-delete engine of the task pages: a set of ids whose delete went
 * through and whose Undo notice is still open, a guarded optimistic delete,
 * the Undo action and the closing of the notice. Each await is one step whose
 * server reply is an input; the page callbacks and messages are recorded as
 * effects, in the order the engine performs them.
 */
module UndoDelete {
  import opened Wrappers
  import opened ClientTypes

  /** How long the notice with the Undo button stays open. */
  const UndoDurationSeconds: int := 6

  datatype Effect =
    | OptimisticRemove(id: int)
    | DeleteRequest(id: int)
    | UndoNotice(id: int, durationSeconds: int)
    | DeleteFailedRestore(task: TaskResponse)
    | RestoreRequest(id: int)
    | DestroyNotice(id: int)
    | RestoreLocal(task: TaskResponse)
    | ShowSuccess(text: string)
    | ShowError(text: string)

  datatype UndoState = UndoState(pending: set<int>, effects: seq<Effect>)

  /** deleteWithUndo(task) with the reply of the delete request. */
  function DeleteStep(st: UndoState, task: TaskResponse, reply: Reply<()>): UndoState {
    if task.id in st.pending then st
    else
      var started := st.effects + [OptimisticRemove(task.id), DeleteRequest(task.id)];
      match reply
      case Resolved(_) => UndoState(st.pending + {task.id}, started + [UndoNotice(task.id, UndoDurationSeconds)])
      case Rejected(m) =>
        UndoState(st.pending, started + [DeleteFailedRestore(task), ShowError(ReadErrorMessage(m, "Failed to delete task"))])
  }

  /** The Undo button of the notice for id, with the reply of the restore request. */
  function UndoStep(st: UndoState, id: int, reply: Reply<TaskResponse>): UndoState {
    if id !in st.pending then st
    else
      match reply
      case Resolved(restored) =>
        UndoState(st.pending - {id}, st.effects + [RestoreRequest(id), DestroyNotice(id), RestoreLocal(restored), ShowSuccess("Task restored")])
      case Rejected(m) =>
        UndoState(st.pending, st.effects + [RestoreRequest(id), ShowError(ReadErrorMessage(m, "Failed to restore task"))])
  }

  /** The notice for id closes, after its six seconds or when destroyed. */
  function CloseStep(st: UndoState, id: int): UndoState {
    st.(pending := st.pending - {id})
  }

  /** A task whose delete is pending cannot be deleted again: nothing happens and nothing is sent. */
  lemma DeleteWhilePendingIsNoOp(st: UndoState, task: TaskResponse, reply: Reply<()>)
    requires task.id in st.pending
    ensures DeleteStep(st, task, reply) == st
  {
  }

  /**
   * Otherwise the card is removed before the delete request is sent; a
   * successful delete makes the id pending and opens the six-second notice, a
   * failed one hands the snapshot back and leaves the pending set as it was.
   */
  lemma DeleteOutcomes(st: UndoState, task: TaskResponse, reply: Reply<()>)
    requires task.id !in st.pending
    ensures var r := DeleteStep(st, task, reply);
      var n := |st.effects|;
      && |r.effects| == n + 3 + (if reply.Rejected? then 1 else 0)
      && r.effects[..n] == st.effects
      && r.effects[n] == OptimisticRemove(task.id)
      && r.effects[n + 1] == DeleteRequest(task.id)
      && (reply.Resolved? ==> r.pending == st.pending + {task.id} && r.effects[n + 2] == UndoNotice(task.id, 6))
      && (reply.Rejected? ==> r.pending == st.pending && r.effects[n + 2] == DeleteFailedRestore(task))
  {
  }

  /** Undo for an id that is not pending does nothing and sends nothing. */
  lemma UndoNeedsPending(st: UndoState, id: int, reply: Reply<TaskResponse>)
    requires id !in st.pending
    ensures UndoStep(st, id, reply) == st
  {
  }

  /**
   * A successful restore drops the id from the pending set before the
   * restored task reaches the page; a failed one keeps it pending.
   */
  lemma UndoOutcomes(st: UndoState, id: int, reply: Reply<TaskResponse>)
    requires id in st.pending
    ensures var r := UndoStep(st, id, reply);
      var n := |st.effects|;
      && r.effects[..n] == st.effects
      && r.effects[n] == RestoreRequest(id)
      && (reply.Resolved? ==> r.pending == st.pending - {id} && r.effects[n + 2] == RestoreLocal(reply.value))
      && (reply.Rejected? ==> r.pending == st.pending && |r.effects| == n + 2 && r.effects[n + 1].ShowError?)
  {
  }

  /** After a failed restore Undo stays available: pressing it again sends a new restore request. */
  lemma FailedUndoIsRetryable(st: UndoState, id: int, m: Option<string>, again: Reply<TaskResponse>)
    requires id in st.pending
    ensures var once := UndoStep(st, id, Rejected(m));
      var twice := UndoStep(once, id, again);
      twice.effects[|once.effects|] == RestoreRequest(id)
  {
  }

  /** Closing a notice only ends the undo window of its id; afterwards Undo does nothing. */
  lemma CloseEndsUndoWindow(st: UndoState, id: int, reply: Reply<TaskResponse>)
    ensures CloseStep(st, id).effects == st.effects
    ensures CloseStep(st, id).pending == st.pending - {id}
    ensures UndoStep(CloseStep(st, id), id, reply) == CloseStep(st, id)
  {
  }

  /** The pending set only ever holds ids that got a delete request and an Undo notice. */
  ghost predicate PendingNoticed(st: UndoState) {
    forall id | id in st.pending :: exists i | 0 <= i < |st.effects| :: st.effects[i] == UndoNotice(id, UndoDurationSeconds)
  }

  lemma StepsKeepPendingNoticed(st: UndoState, task: TaskResponse, del: Reply<()>, id: int, undo: Reply<TaskResponse>)
    requires PendingNoticed(st)
    ensures PendingNoticed(DeleteStep(st, task, del))
    ensures PendingNoticed(UndoStep(st, id, undo))
    ensures PendingNoticed(CloseStep(st, id))
  {
    var d := DeleteStep(st, task, del);
    forall x | x in d.pending
      ensures exists i | 0 <= i < |d.effects| :: d.effects[i] == UndoNotice(x, UndoDurationSeconds)
    {
      if x in st.pending {
        var i :| 0 <= i < |st.effects| && st.effects[i] == UndoNotice(x, UndoDurationSeconds);
        assert d.effects[i] == st.effects[i];
      } else {
        assert d.effects[|d.effects| - 1] == UndoNotice(x, UndoDurationSeconds);
      }
    }
    var u := UndoStep(st, id, undo);
    forall x | x in u.pending
      ensures exists i | 0 <= i < |u.effects| :: u.effects[i] == UndoNotice(x, UndoDurationSeconds)
    {
      var i :| 0 <= i < |st.effects| && st.effects[i] == UndoNotice(x, UndoDurationSeconds);
      assert u.effects[i] == st.effects[i];
    }
  }

  /** useUndoDelete: the pending-id set of the hook, with the effects it performed. */
  class UndoDeleteEngine {
    var pendingDeleteIds: set<int>
    var effects: seq<Effect>

    function State(): UndoState
      reads this
    {
      UndoState(pendingDeleteIds, effects)
    }

    constructor()
      ensures State() == UndoState({}, [])
    {
      pendingDeleteIds, effects := {}, [];
    }

    method DeleteWithUndo(task: TaskResponse, reply: Reply<()>)
      modifies this
      ensures State() == DeleteStep(old(State()), task, reply)
    {
      if task.id in pendingDeleteIds {
        return;
      }
      effects := effects + [OptimisticRemove(task.id)];
      effects := effects + [DeleteRequest(task.id)];
      if reply.Resolved? {
        pendingDeleteIds := pendingDeleteIds + {task.id};
        effects := effects + [UndoNotice(task.id, UndoDurationSeconds)];
      } else {
        effects := effects + [DeleteFailedRestore(task)];
        effects := effects + [ShowError(ReadErrorMessage(reply.message, "Failed to delete task"))];
      }
    }

    method Undo(id: int, reply: Reply<TaskResponse>)
      modifies this
      ensures State() == UndoStep(old(State()), id, reply)
    {
      if id !in pendingDeleteIds {
        return;
      }
      effects := effects + [RestoreRequest(id)];
      if reply.Resolved? {
        var restored := reply.value;
        pendingDeleteIds := pendingDeleteIds - {id};
        effects := effects + [DestroyNotice(id)];
        effects := effects + [RestoreLocal(restored)];
        effects := effects + [ShowSuccess("Task restored")];
      } else {
        effects := effects + [ShowError(ReadErrorMessage(reply.message, "Failed to restore task"))];
      }
    }

    method Close(id: int)
      modifies this
      ensures State() == CloseStep(old(State()), id)
    {
      pendingDeleteIds := pendingDeleteIds - {id};
    }
  }
}
