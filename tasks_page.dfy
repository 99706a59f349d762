/**
 * The tasks page's footer counts and the mapping of a task to the edit form's
 * initial values.
 */
module TasksPage {
  import opened Wrappers
  import opened JsArray
  import opened ClientTypes

  datatype Stats = Stats(total: nat, completed: nat, pending: nat)

  function StatusIs(s: string): TaskResponse -> bool {
    (t: TaskResponse) => t.status == Some(s)
  }

  /** stats: how many tasks are listed, and how many carry exactly COMPLETED and PENDING. */
  function PageStats(tasks: seq<TaskResponse>): Stats {
    Stats(|tasks|, Count(tasks, StatusIs("COMPLETED")), Count(tasks, StatusIs("PENDING")))
  }

  /** Two predicates that never hold together count no more elements than there are. */
  lemma {:induction false} DisjointCounts<T>(s: seq<T>, p: T -> bool, q: T -> bool)
    requires forall x :: !(p(x) && q(x))
    ensures Count(s, p) + Count(s, q) <= |s|
    decreases |s|
  {
    if s != [] {
      DisjointCounts(s[1..], p, q);
      assert Filter(s, p) == (if p(s[0]) then [s[0]] else []) + Filter(s[1..], p);
      assert Filter(s, q) == (if q(s[0]) then [s[0]] else []) + Filter(s[1..], q);
    }
  }

  /**
   * The total is the number of listed tasks; completed counts exactly the
   * positions whose status is the legacy COMPLETED and pending exactly those
   * whose status is PENDING, so the two never add up to more than the total
   * and a task in any other status, the board's DONE and TODO included, is in
   * neither count.
   */
  lemma StatsBounded(tasks: seq<TaskResponse>)
    ensures PageStats(tasks).total == |tasks|
    ensures PageStats(tasks).completed == |set i | 0 <= i < |tasks| && tasks[i].status == Some("COMPLETED")|
    ensures PageStats(tasks).pending == |set i | 0 <= i < |tasks| && tasks[i].status == Some("PENDING")|
    ensures PageStats(tasks).completed + PageStats(tasks).pending <= PageStats(tasks).total
    ensures forall i | 0 <= i < |tasks| :: tasks[i].status != Some("COMPLETED") ==> tasks[i] !in Filter(tasks, StatusIs("COMPLETED"))
    ensures forall i | 0 <= i < |tasks| :: tasks[i].status != Some("PENDING") ==> tasks[i] !in Filter(tasks, StatusIs("PENDING"))
  {
    DisjointCounts(tasks, StatusIs("COMPLETED"), StatusIs("PENDING"));
    StatusCount(tasks, "COMPLETED");
    StatusCount(tasks, "PENDING");
  }

  /** The count for one status is the number of positions carrying exactly it; no other task is counted. */
  lemma StatusCount(tasks: seq<TaskResponse>, st: string)
    ensures Count(tasks, StatusIs(st)) == |set i | 0 <= i < |tasks| && tasks[i].status == Some(st)|
    ensures forall i | 0 <= i < |tasks| :: tasks[i].status != Some(st) ==> tasks[i] !in Filter(tasks, StatusIs(st))
  {
    assert PassingIndices(tasks, StatusIs(st)) == set i | 0 <= i < |tasks| && tasks[i].status == Some(st);
    forall i | 0 <= i < |tasks| ensures tasks[i].status != Some(st) ==> tasks[i] !in Filter(tasks, StatusIs(st)) {
      FilterMember(tasks, StatusIs(st), tasks[i]);
    }
  }

  /** toTaskRequest: nothing for no task; otherwise its fields, a missing description as ''. */
  function ToTaskRequest(task: Option<TaskResponse>): (r: Option<TaskRequest>)
    ensures r.None? <==> task.None?
    ensures task.Some? ==>
      r.value.title == task.value.title
      && r.value.description == Some(task.value.description.GetOr(""))
      && r.value.priority == task.value.priority
      && r.value.status == task.value.status
      && r.value.deadline == task.value.deadline
  {
    match task
    case None => None
    case Some(t) => Some(TaskRequest(t.title, Some(t.description.GetOr("")), t.priority, t.status, t.deadline))
  }
}
