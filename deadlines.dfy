/**
 * Deadline handling shared by the calendar, the deleted-task page, the health
 * and today widgets: the ascending deadline order with missing deadlines last,
 * and the urgency a deadline has at a given moment.
 */
module Deadlines {
  import opened Wrappers
  import opened Time
  import opened JsArray
  import opened ClientTypes

  /** The sort key of a task: its deadline, Number.MAX_SAFE_INTEGER when it has none. */
  function DeadlineKey(t: TaskResponse): int {
    t.deadline.GetOr(MaxSafeInteger)
  }

  /** sortByDeadlineAsc: the difference of the deadline keys. */
  function ByDeadline(): (TaskResponse, TaskResponse) -> int {
    ByKey(DeadlineKey)
  }

  lemma ByDeadlineConsistent()
    ensures Consistent(ByDeadline())
  {
    ByKeyConsistent(DeadlineKey);
  }

  /**
   * Sorting by deadline yields ascending deadline keys, so a task without a
   * deadline never precedes a task due before Number.MAX_SAFE_INTEGER.
   */
  lemma SortByDeadlineAscending(s: seq<TaskResponse>)
    ensures var r := Sort(s, ByDeadline());
      forall i, j | 0 <= i < j < |r| :: DeadlineKey(r[i]) <= DeadlineKey(r[j])
  {
    ByDeadlineConsistent();
    SortSorted(s, ByDeadline());
    var r := Sort(s, ByDeadline());
    forall i, j | 0 <= i < j < |r| ensures DeadlineKey(r[i]) <= DeadlineKey(r[j]) {
      assert ByDeadline()(r[i], r[j]) <= 0;
    }
  }

  /** Tasks with the same deadline key leave the sort in the order they entered it. */
  lemma SortByDeadlineStable(s: seq<TaskResponse>, key: int)
    ensures Filter(Sort(s, ByDeadline()), KeyIs(key)) == Filter(s, KeyIs(key))
  {
    SortStable(s, ByDeadline(), KeyIs(key));
  }

  function KeyIs(key: int): TaskResponse -> bool {
    (t: TaskResponse) => DeadlineKey(t) == key
  }

  /** The colour class of a deadline: RED, ORANGE, YELLOW, or NONE without a deadline. */
  datatype Urgency = Red | Orange | Yellow | NoUrgency

  function Severity(u: Urgency): nat {
    match u
    case Red => 3
    case Orange => 2
    case Yellow => 1
    case NoUrgency => 0
  }

  /** Of any two tasks of s, both have a deadline and the first one's is not later. */
  predicate DeadlinesAscending(s: seq<TaskResponse>) {
    forall i, j | 0 <= i < j < |s| :: s[i].deadline.Some? && s[j].deadline.Some? && s[i].deadline.value <= s[j].deadline.value
  }

  /** Sorting tasks that all have a deadline puts their deadlines in ascending order. */
  lemma SortedDeadlineValues(due: seq<TaskResponse>, sorted: seq<TaskResponse>)
    requires forall i | 0 <= i < |due| :: due[i].deadline.Some?
    requires sorted == Sort(due, ByDeadline())
    ensures DeadlinesAscending(sorted)
  {
    SortByDeadlineAscending(due);
    forall i | 0 <= i < |sorted| ensures sorted[i].deadline.Some? {
      SortMember(due, ByDeadline(), sorted[i]);
      var k :| 0 <= k < |due| && due[k] == sorted[i];
    }
  }

  /**
   * getDeadlineUrgency at the moment now: hoursLeft, the fractional hours to the
   * deadline (negative once it has passed), at most 24 is RED, at most 24 * 7 is
   * ORANGE, anything later YELLOW. hoursLeft <= h is (deadline - now) <= h hours.
   */
  function DeadlineUrgency(deadline: Option<Millis>, now: Millis): (r: Urgency)
    ensures r == NoUrgency <==> deadline.None?
    ensures r == Red <==> deadline.Some? && deadline.value - now <= DayMs
    ensures r == Orange <==> deadline.Some? && DayMs < deadline.value - now <= WeekMs
    ensures r == Yellow <==> deadline.Some? && WeekMs < deadline.value - now
  {
    if deadline.None? then NoUrgency
    else
      var left := deadline.value - now;
      if left <= 24 * HourMs then Red
      else if left <= 24 * 7 * HourMs then Orange
      else Yellow
  }

  /** A later deadline is never more urgent, and the urgency of a deadline never falls as time passes. */
  lemma UrgencyMonotone(d1: Millis, d2: Millis, now1: Millis, now2: Millis)
    requires d1 <= d2 && now2 <= now1
    ensures Severity(DeadlineUrgency(Some(d2), now2)) <= Severity(DeadlineUrgency(Some(d1), now1))
  {
  }
}
