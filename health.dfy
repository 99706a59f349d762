/**
 * The smart task health widget: each task of the selected day is on track,
 * due soon or overdue, depending on its status, its priority and the time left
 * until its deadline, measured from a reference time; the day's health is the
 * worst of its tasks. dayjs's fractional hour difference is compared exactly:
 * hoursLeft < 0 is deadline < reference, and hoursLeft <= h is
 * deadline - reference <= h hours.
 */
module TaskHealth {
  import opened Wrappers
  import opened Time
  import opened JsArray
  import opened ClientTypes

  datatype Health = OnTrack | DueSoon | Overdue

  /** The order of concern, used for the day's overall health. */
  function Rank(h: Health): nat {
    match h
    case OnTrack => 0
    case DueSoon => 1
    case Overdue => 2
  }

  /** The due-soon window of a priority, in hours: wider for a more important task. */
  function DueSoonHours(priority: Option<string>): (r: int)
    ensures r == 72 <==> priority == Some("HIGH")
    ensures r == 48 <==> priority == Some("MODERATE")
    ensures r == 24 <==> priority != Some("HIGH") && priority != Some("MODERATE")
  {
    if priority == Some("HIGH") then 72
    else if priority == Some("MODERATE") then 48
    else 24
  }

  predicate IsFinished(t: TaskResponse) {
    t.status == Some("DONE") || t.status == Some("COMPLETED")
  }

  /** getTaskHealth. */
  function TaskHealthAt(t: TaskResponse, reference: Millis): (r: Health)
    ensures IsFinished(t) ==> r == OnTrack
    ensures t.deadline.None? ==> r == OnTrack
    ensures !IsFinished(t) && t.deadline.Some? ==>
      (r == Overdue <==> t.deadline.value < reference)
      && (r == DueSoon <==> reference <= t.deadline.value <= reference + DueSoonHours(t.priority) * HourMs)
  {
    if IsFinished(t) then OnTrack
    else if t.deadline.None? then OnTrack
    else
      var left := t.deadline.value - reference;
      if left < 0 then Overdue
      else if left <= DueSoonHours(t.priority) * HourMs then DueSoon
      else OnTrack
  }

  /** Raising a task's priority never makes it look healthier. */
  lemma HigherPriorityWidensWindow(t: TaskResponse, reference: Millis, higher: Option<string>)
    requires DueSoonHours(higher) >= DueSoonHours(t.priority)
    ensures Rank(TaskHealthAt(t, reference)) <= Rank(TaskHealthAt(t.(priority := higher), reference))
  {
  }

  /** As the reference time moves forward a task only gets more urgent. */
  lemma HealthWorsensOverTime(t: TaskResponse, earlier: Millis, later: Millis)
    requires earlier <= later
    ensures Rank(TaskHealthAt(t, earlier)) <= Rank(TaskHealthAt(t, later))
  {
  }

  function HealthIs(h: Health, reference: Millis): TaskResponse -> bool {
    (t: TaskResponse) => TaskHealthAt(t, reference) == h
  }

  /** overallHealth: OVERDUE if some task is, else DUE_SOON if some task is, else ON_TRACK. */
  function OverallHealth(tasks: seq<TaskResponse>, reference: Millis): (r: Health)
    ensures forall i | 0 <= i < |tasks| :: Rank(TaskHealthAt(tasks[i], reference)) <= Rank(r)
    ensures r != OnTrack ==> exists i | 0 <= i < |tasks| :: TaskHealthAt(tasks[i], reference) == r
    ensures tasks == [] ==> r == OnTrack
  {
    if Any(tasks, HealthIs(Overdue, reference)) then Overdue
    else if Any(tasks, HealthIs(DueSoon, reference)) then DueSoon
    else OnTrack
  }

  /** referenceTime: now on today, the last millisecond of the selected day otherwise. */
  function ReferenceTime(selected: Millis, now: Millis): (r: Millis)
    ensures DayKey(selected) == DayKey(now) ==> r == now
    ensures DayKey(selected) != DayKey(now) ==> r == EndOfDay(selected) && DayKey(r) == DayKey(selected)
  {
    if DayKey(selected) == DayKey(now) then now else EndOfDay(selected)
  }

  /**
   * On a day other than today every task of that day is judged at the day's
   * last millisecond, so an unfinished task due that day is never on track.
   */
  lemma PastOrFutureDayJudgedAtItsEnd(t: TaskResponse, selected: Millis, now: Millis)
    requires DayKey(selected) != DayKey(now)
    requires t.deadline.Some? && DayKey(t.deadline.value) == DayKey(selected) && !IsFinished(t)
    ensures TaskHealthAt(t, ReferenceTime(selected, now)) != OnTrack
  {
  }

  function DueOn(selected: Millis): TaskResponse -> bool {
    (t: TaskResponse) => t.deadline.Some? && DayKey(t.deadline.value) == DayKey(selected)
  }

  /** tasksForDay: the tasks whose deadline falls on the selected day, in list order. */
  function TasksForDay(tasks: seq<TaskResponse>, selected: Millis): (r: seq<TaskResponse>)
    ensures forall t :: t in r <==> t in tasks && t.deadline.Some? && DayKey(t.deadline.value) == DayKey(selected)
    ensures Subsequence(r, tasks)
  {
    forall t ensures t in Filter(tasks, DueOn(selected)) <==> t in tasks && DueOn(selected)(t) {
      FilterMember(tasks, DueOn(selected), t);
    }
    FilterSubsequence(tasks, DueOn(selected));
    Filter(tasks, DueOn(selected))
  }

  /** The widget's tag: the overall health of the selected day's tasks at the reference time. */
  function DayHealth(tasks: seq<TaskResponse>, selected: Millis, now: Millis): Health {
    OverallHealth(TasksForDay(tasks, selected), ReferenceTime(selected, now))
  }

  /** A day is overdue exactly when one of its unfinished tasks is past its deadline at the reference time. */
  lemma DayOverdueIff(tasks: seq<TaskResponse>, selected: Millis, now: Millis)
    ensures DayHealth(tasks, selected, now) == Overdue <==>
      exists t | t in tasks :: t.deadline.Some? && DayKey(t.deadline.value) == DayKey(selected) && !IsFinished(t)
        && t.deadline.value < ReferenceTime(selected, now)
  {
    var day := TasksForDay(tasks, selected);
    var reference := ReferenceTime(selected, now);
    if DayHealth(tasks, selected, now) == Overdue {
      var i :| 0 <= i < |day| && TaskHealthAt(day[i], reference) == Overdue;
      assert day[i] in day;
    }
    if exists t | t in tasks :: t.deadline.Some? && DayKey(t.deadline.value) == DayKey(selected) && !IsFinished(t)
        && t.deadline.value < reference {
      var t :| t in tasks && t.deadline.Some? && DayKey(t.deadline.value) == DayKey(selected) && !IsFinished(t)
        && t.deadline.value < reference;
      assert t in day;
      var i :| 0 <= i < |day| && day[i] == t;
      assert Rank(TaskHealthAt(day[i], reference)) <= Rank(OverallHealth(day, reference));
    }
  }
}
