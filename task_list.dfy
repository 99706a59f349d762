/**
 * The active-task list hook apart from its page loop: the local list patches
 * the undo-delete engine calls back into, the look-up that starts a delete,
 * the create/edit modal, submitting the form and marking a task completed.
 * Server replies are inputs; the requests and messages are recorded in order.
 */
module TaskList {
  import opened Wrappers
  import opened JsArray
  import opened ClientTypes
  import opened UndoDelete

  /** A request the hook sends; Refetch stands for a call of the page loop. */
  datatype ApiCall = UpdateTask(id: int, values: TaskRequest) | CreateTask(values: TaskRequest) | MarkCompleted(id: int) | Refetch

  /** An antd message toast. */
  datatype Toast = SuccessToast(text: string) | ErrorToast(text: string)

  function HasId(id: int): TaskResponse -> bool {
    (t: TaskResponse) => t.id == id
  }

  function NotId(id: int): TaskResponse -> bool {
    (t: TaskResponse) => t.id != id
  }

  /** tasks.some((item) => item.id === id). */
  predicate HoldsId(tasks: seq<TaskResponse>, id: int) {
    exists i | 0 <= i < |tasks| :: tasks[i].id == id
  }

  /** onOptimisticRemove: every task with the id leaves the list; the others stay in order. */
  function RemoveTask(tasks: seq<TaskResponse>, id: int): (r: seq<TaskResponse>)
    ensures !HoldsId(r, id)
    ensures forall i | 0 <= i < |tasks| :: tasks[i].id != id ==> tasks[i] in r
    ensures Subsequence(r, tasks)
  {
    FilterSubsequence(tasks, NotId(id));
    Filter(tasks, NotId(id))
  }

  /** onRestoreLocal and onDeleteFailedRestore: put the task in front unless its id is already listed. */
  function RestoreTask(tasks: seq<TaskResponse>, task: TaskResponse): (r: seq<TaskResponse>)
    ensures HoldsId(r, task.id)
    ensures HoldsId(tasks, task.id) ==> r == tasks
    ensures !HoldsId(tasks, task.id) ==> r == [task] + tasks
  {
    assert ([task] + tasks)[0].id == task.id;
    if HoldsId(tasks, task.id) then tasks else [task] + tasks
  }

  /** Restoring twice is restoring once, so the two restore paths may both fire. */
  lemma RestoreLocalIdempotent(tasks: seq<TaskResponse>, task: TaskResponse)
    ensures RestoreTask(RestoreTask(tasks, task), task) == RestoreTask(tasks, task)
  {
  }

  /** A task that was removed and then restored is back, in front of the others. */
  lemma RemoveThenRestore(tasks: seq<TaskResponse>, task: TaskResponse)
    ensures RestoreTask(RemoveTask(tasks, task.id), task) == [task] + RemoveTask(tasks, task.id)
  {
  }

  /** How the hook applies one engine effect to its list; the other effects leave the list alone. */
  function ApplyEffect(tasks: seq<TaskResponse>, e: Effect): seq<TaskResponse> {
    match e
    case OptimisticRemove(id) => RemoveTask(tasks, id)
    case RestoreLocal(t) => RestoreTask(tasks, t)
    case DeleteFailedRestore(t) => RestoreTask(tasks, t)
    case _ => tasks
  }

  function ApplyEffects(tasks: seq<TaskResponse>, es: seq<Effect>): seq<TaskResponse>
    decreases |es|
  {
    if es == [] then tasks else ApplyEffects(ApplyEffect(tasks, es[0]), es[1..])
  }

  /** handleDelete's look-up: the first listed task with the id, None (shown as 'Task not found') when there is none. */
  function DeleteTarget(tasks: seq<TaskResponse>, id: int): (r: Option<TaskResponse>)
    ensures r.None? <==> !HoldsId(tasks, id)
    ensures r.Some? ==> r.value in tasks && r.value.id == id
  {
    Find(tasks, HasId(id))
  }

  /**
   * Deleting a listed task through the engine: a delete that goes through
   * leaves no card with its id; a rejected one puts the card back, in front.
   */
  lemma DeleteFlow(tasks: seq<TaskResponse>, st: UndoState, id: int, reply: Reply<()>)
    requires HoldsId(tasks, id)
    requires id !in st.pending
    ensures var task := DeleteTarget(tasks, id).value;
      var after := DeleteStep(st, task, reply);
      var local := ApplyEffects(tasks, after.effects[|st.effects|..]);
      (reply.Resolved? ==> !HoldsId(local, id))
      && (reply.Rejected? ==> local == [task] + RemoveTask(tasks, id))
  {
    var task := DeleteTarget(tasks, id).value;
    var added := DeleteStep(st, task, reply).effects[|st.effects|..];
    if reply.Resolved? {
      assert added == [OptimisticRemove(id), DeleteRequest(id), UndoNotice(id, UndoDurationSeconds)];
      ApplyDeleteAccepted(tasks, id);
    } else {
      var msg := ShowError(ReadErrorMessage(reply.message, "Failed to delete task"));
      assert added == [OptimisticRemove(id), DeleteRequest(id), DeleteFailedRestore(task), msg];
      ApplyDeleteRejected(tasks, task, msg.text);
      RemoveThenRestore(tasks, task);
    }
  }

  lemma ApplyDeleteAccepted(tasks: seq<TaskResponse>, id: int)
    ensures ApplyEffects(tasks, [OptimisticRemove(id), DeleteRequest(id), UndoNotice(id, UndoDurationSeconds)]) == RemoveTask(tasks, id)
  {
    var es := [OptimisticRemove(id), DeleteRequest(id), UndoNotice(id, UndoDurationSeconds)];
    var removed := RemoveTask(tasks, id);
    assert ApplyEffects(tasks, es) == ApplyEffects(removed, es[1..]);
    assert ApplyEffects(removed, es[1..]) == ApplyEffects(removed, es[2..]);
    assert ApplyEffects(removed, es[2..]) == ApplyEffects(removed, es[3..]);
  }

  lemma ApplyDeleteRejected(tasks: seq<TaskResponse>, task: TaskResponse, text: string)
    ensures ApplyEffects(tasks, [OptimisticRemove(task.id), DeleteRequest(task.id), DeleteFailedRestore(task), ShowError(text)])
      == RestoreTask(RemoveTask(tasks, task.id), task)
  {
    var es := [OptimisticRemove(task.id), DeleteRequest(task.id), DeleteFailedRestore(task), ShowError(text)];
    var removed := RemoveTask(tasks, task.id);
    var back := RestoreTask(removed, task);
    assert ApplyEffects(tasks, es) == ApplyEffects(removed, es[1..]);
    assert ApplyEffects(removed, es[1..]) == ApplyEffects(removed, es[2..]);
    assert ApplyEffects(removed, es[2..]) == ApplyEffects(back, es[3..]);
    assert ApplyEffects(back, es[3..]) == ApplyEffects(back, es[4..]);
  }

  /** A successful Undo brings the restored task back into whatever list the page shows by then. */
  lemma UndoFlow(tasks: seq<TaskResponse>, st: UndoState, id: int, restored: TaskResponse)
    requires id in st.pending
    ensures var after := UndoStep(st, id, Resolved(restored));
      HoldsId(ApplyEffects(tasks, after.effects[|st.effects|..]), restored.id)
  {
    var added := UndoStep(st, id, Resolved(restored)).effects[|st.effects|..];
    assert added == [RestoreRequest(id), DestroyNotice(id), RestoreLocal(restored), ShowSuccess("Task restored")];
    var back := RestoreTask(tasks, restored);
    assert ApplyEffects(tasks, added) == ApplyEffects(tasks, added[1..]);
    assert ApplyEffects(tasks, added[1..]) == ApplyEffects(tasks, added[2..]);
    assert ApplyEffects(tasks, added[2..]) == ApplyEffects(back, added[3..]);
    assert ApplyEffects(back, added[3..]) == ApplyEffects(back, added[4..]);
  }

  /** The form modal and the messages of the hook. */
  datatype FormState = FormState(
    modalOpen: bool,
    editingTask: Option<TaskResponse>,
    calls: seq<ApiCall>,
    toasts: seq<Toast>,
    notices: seq<string>)

  /** handleSubmit with the reply of the update or create request. */
  function SubmitStep(st: FormState, values: TaskRequest, reply: Reply<()>): FormState {
    var call := if st.editingTask.Some? then UpdateTask(st.editingTask.value.id, values) else CreateTask(values);
    var sent := st.(calls := st.calls + [call]);
    match reply
    case Resolved(_) =>
      var text := if st.editingTask.Some? then "Task updated successfully" else "Task created successfully";
      sent.(toasts := sent.toasts + [SuccessToast(text)], modalOpen := false, editingTask := None, calls := sent.calls + [Refetch])
    case Rejected(m) => sent.(notices := sent.notices + [ReadErrorMessage(m, "Failed to save task")])
  }

  /** handleComplete with the reply of the completion request. */
  function CompleteStep(st: FormState, id: int, reply: Reply<()>): FormState {
    var sent := st.(calls := st.calls + [MarkCompleted(id)]);
    match reply
    case Resolved(_) => sent.(toasts := sent.toasts + [SuccessToast("Task marked as completed")], calls := sent.calls + [Refetch])
    case Rejected(m) => sent.(toasts := sent.toasts + [ErrorToast(ReadErrorMessage(m, "Failed to complete task"))])
  }

  /**
   * Submitting updates the task being edited and creates one otherwise; only
   * a successful save closes the form, leaves edit mode and reloads the list.
   * A failed one keeps the form as it was and shows the error notice.
   */
  lemma SubmitOutcomes(st: FormState, values: TaskRequest, reply: Reply<()>)
    ensures var r := SubmitStep(st, values, reply);
      var n := |st.calls|;
      r.calls[..n] == st.calls
      && (st.editingTask.Some? ==> r.calls[n] == UpdateTask(st.editingTask.value.id, values))
      && (st.editingTask.None? ==> r.calls[n] == CreateTask(values))
      && (reply.Resolved? ==> !r.modalOpen && r.editingTask.None? && r.calls == st.calls + [r.calls[n], Refetch]
                              && r.notices == st.notices)
      && (reply.Rejected? ==> r.modalOpen == st.modalOpen && r.editingTask == st.editingTask
                              && |r.calls| == n + 1 && r.toasts == st.toasts
                              && r.notices == st.notices + [ReadErrorMessage(reply.message, "Failed to save task")])
  {
  }

  /** Completing reloads the list only when the server accepted; either way the form is untouched. */
  lemma CompleteOutcomes(st: FormState, id: int, reply: Reply<()>)
    ensures var r := CompleteStep(st, id, reply);
      r.modalOpen == st.modalOpen && r.editingTask == st.editingTask && r.notices == st.notices
      && (reply.Resolved? <==> r.calls == st.calls + [MarkCompleted(id), Refetch])
      && (reply.Rejected? <==> r.calls == st.calls + [MarkCompleted(id)])
  {
  }

  /** useTasks: the list and the form state of one hook instance. */
  class TaskListHook {
    var tasks: seq<TaskResponse>
    var modalOpen: bool
    var editingTask: Option<TaskResponse>
    var calls: seq<ApiCall>
    var toasts: seq<Toast>
    var notices: seq<string>

    function Form(): FormState
      reads this
    {
      FormState(modalOpen, editingTask, calls, toasts, notices)
    }

    constructor()
      ensures tasks == [] && Form() == FormState(false, None, [], [], [])
    {
      tasks, modalOpen, editingTask := [], false, None;
      calls, toasts, notices := [], [], [];
    }

    /** handleEdit: open the form on the given task. */
    method HandleEdit(task: TaskResponse)
      modifies this
      ensures Form() == old(Form()).(modalOpen := true, editingTask := Some(task))
      ensures tasks == old(tasks)
    {
      editingTask := Some(task);
      modalOpen := true;
    }

    /** openCreate: open a blank form. */
    method OpenCreate()
      modifies this
      ensures Form() == old(Form()).(modalOpen := true, editingTask := None)
      ensures tasks == old(tasks)
    {
      editingTask := None;
      modalOpen := true;
    }

    /** closeForm: close the form and leave edit mode. */
    method CloseForm()
      modifies this
      ensures Form() == old(Form()).(modalOpen := false, editingTask := None)
      ensures tasks == old(tasks)
    {
      modalOpen := false;
      editingTask := None;
    }

    method HandleSubmit(values: TaskRequest, reply: Reply<()>)
      modifies this
      ensures Form() == SubmitStep(old(Form()), values, reply)
      ensures tasks == old(tasks)
    {
      if editingTask.Some? {
        calls := calls + [UpdateTask(editingTask.value.id, values)];
        if reply.Resolved? {
          toasts := toasts + [SuccessToast("Task updated successfully")];
        }
      } else {
        calls := calls + [CreateTask(values)];
        if reply.Resolved? {
          toasts := toasts + [SuccessToast("Task created successfully")];
        }
      }
      if reply.Rejected? {
        notices := notices + [ReadErrorMessage(reply.message, "Failed to save task")];
        return;
      }
      modalOpen := false;
      editingTask := None;
      calls := calls + [Refetch];
    }

    method HandleComplete(id: int, reply: Reply<()>)
      modifies this
      ensures Form() == CompleteStep(old(Form()), id, reply)
      ensures tasks == old(tasks)
    {
      calls := calls + [MarkCompleted(id)];
      if reply.Resolved? {
        toasts := toasts + [SuccessToast("Task marked as completed")];
        calls := calls + [Refetch];
      } else {
        toasts := toasts + [ErrorToast(ReadErrorMessage(reply.message, "Failed to complete task"))];
      }
    }

    /** handleDelete: look the task up; when it is missing, say so and hand nothing to the engine. */
    method HandleDelete(id: int) returns (target: Option<TaskResponse>)
      modifies this
      ensures target == DeleteTarget(old(tasks), id)
      ensures tasks == old(tasks)
      ensures Form() == if target.None? then old(Form()).(toasts := old(toasts) + [ErrorToast("Task not found")]) else old(Form())
    {
      target := Find(tasks, HasId(id));
      if target.None? {
        toasts := toasts + [ErrorToast("Task not found")];
      }
    }

    /** The list callbacks handed to the undo-delete engine. */
    method OnEngineEffect(e: Effect)
      modifies this
      ensures tasks == ApplyEffect(old(tasks), e)
      ensures Form() == old(Form())
    {
      match e {
        case OptimisticRemove(id) =>
          tasks := Filter(tasks, NotId(id));
        case RestoreLocal(t) =>
          if !HoldsId(tasks, t.id) {
            tasks := [t] + tasks;
          }
        case DeleteFailedRestore(t) =>
          if !HoldsId(tasks, t.id) {
            tasks := [t] + tasks;
          }
        case _ =>
      }
    }
  }
}
