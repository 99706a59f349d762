/**
 * The today-deadlines widget: the tasks whose deadline falls on today's
 * calendar day, earliest first. The current time is an input; the
 * 'YYYY-MM-DD' format key is the day key.
 */
module TodayDeadlines {
  import opened Wrappers
  import opened Time
  import opened JsArray
  import opened ClientTypes
  import opened Deadlines

  function DueToday(now: Millis): TaskResponse -> bool {
    (t: TaskResponse) => t.deadline.Some? && DayKey(t.deadline.value) == DayKey(now)
  }

  /**
   * todayTasks: filter, then sort the filtered copy. Every kept task has a
   * deadline, so the comparator's deadline difference is the deadline order.
   */
  function TodayTasks(tasks: seq<TaskResponse>, now: Millis): seq<TaskResponse> {
    Sort(Filter(tasks, DueToday(now)), ByDeadline())
  }

  lemma TodayMember(tasks: seq<TaskResponse>, now: Millis, t: TaskResponse)
    ensures t in TodayTasks(tasks, now) <==> t in tasks && t.deadline.Some? && DayKey(t.deadline.value) == DayKey(now)
  {
    SortMember(Filter(tasks, DueToday(now)), ByDeadline(), t);
    FilterMember(tasks, DueToday(now), t);
  }

  /** Today's tasks all have a deadline, and the deadlines ascend. */
  lemma TodayOrder(tasks: seq<TaskResponse>, now: Millis)
    ensures DeadlinesAscending(TodayTasks(tasks, now))
  {
    var due := Filter(tasks, DueToday(now));
    assert forall i | 0 <= i < |due| :: DueToday(now)(due[i]);
    SortedDeadlineValues(due, TodayTasks(tasks, now));
  }

  /**
   * The widget lists exactly today's tasks, each at most as often as in the
   * input, with their deadlines ascending; a task without a deadline never
   * appears.
   */
  lemma TodayTasksExact(tasks: seq<TaskResponse>, now: Millis)
    ensures var r := TodayTasks(tasks, now);
      (forall t :: t in r <==> t in tasks && t.deadline.Some? && DayKey(t.deadline.value) == DayKey(now))
      && multiset(r) <= multiset(tasks)
      && (forall i | 0 <= i < |r| :: r[i].deadline.Some?)
      && (forall i, j | 0 <= i < j < |r| :: r[i].deadline.value <= r[j].deadline.value)
  {
    var r := TodayTasks(tasks, now);
    forall t ensures t in r <==> t in tasks && t.deadline.Some? && DayKey(t.deadline.value) == DayKey(now) {
      TodayMember(tasks, now, t);
    }
    forall i | 0 <= i < |r| ensures r[i].deadline.Some? {
      TodayMember(tasks, now, r[i]);
    }
    TodayOrder(tasks, now);
  }
}
