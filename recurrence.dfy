/** RecurrenceService: the next deadline of a recurring task and the end-date gate. */
module RecurrenceService {
  import opened Wrappers
  import opened Time
  import opened TaskEntity

  /** Math.max(interval, 1). */
  function SafeInterval(interval: int): (r: int)
    ensures r >= 1
    ensures interval >= 1 ==> r == interval
  {
    if interval > 1 then interval else 1
  }

  /**
   * computeNextDeadline. LocalDateTime.plusMonths clamps to the end of shorter
   * months; it is the parameter plusMonths here.
   */
  function ComputeNextDeadline(current: Option<Millis>, kind: Option<RecurrenceType>, interval: int,
                               plusMonths: (Millis, int) -> Millis): (r: Option<Millis>)
    ensures current.None? || kind.None? || kind == Some(NONE) ==> r.None?
    ensures current.Some? && kind == Some(DAILY) ==> r == Some(PlusDays(current.value, SafeInterval(interval)))
    ensures current.Some? && kind == Some(WEEKLY) ==> r == Some(PlusWeeks(current.value, SafeInterval(interval)))
    ensures current.Some? && kind == Some(MONTHLY) ==> r == Some(plusMonths(current.value, SafeInterval(interval)))
  {
    if current.None? || kind.None? || kind == Some(NONE) then None
    else
      var n := SafeInterval(interval);
      match kind.value
      case DAILY => Some(PlusDays(current.value, n))
      case WEEKLY => Some(PlusWeeks(current.value, n))
      case MONTHLY => Some(plusMonths(current.value, n))
      case NONE => None
  }

  /** An interval below 1 behaves exactly like 1. */
  lemma IntervalBelowOneIsOne(current: Option<Millis>, kind: Option<RecurrenceType>, interval: int,
                              plusMonths: (Millis, int) -> Millis)
    requires interval < 1
    ensures ComputeNextDeadline(current, kind, interval, plusMonths) == ComputeNextDeadline(current, kind, 1, plusMonths)
  {
  }

  /** Daily and weekly recurrences always move the deadline strictly forward, by whole days. */
  lemma DailyWeeklyMoveForward(current: Millis, kind: RecurrenceType, interval: int, plusMonths: (Millis, int) -> Millis)
    requires kind == DAILY || kind == WEEKLY
    ensures ComputeNextDeadline(Some(current), Some(kind), interval, plusMonths).Some?
    ensures var next := ComputeNextDeadline(Some(current), Some(kind), interval, plusMonths).value;
      next > current && (next - current) % DayMs == 0
  {
    var n := SafeInterval(interval);
    if kind == DAILY {
      assert PlusDays(current, n) - current == n * DayMs;
      WholeDays(n);
    } else {
      assert PlusWeeks(current, n) - current == (7 * n) * DayMs;
      WholeDays(7 * n);
    }
  }

  lemma WholeDays(k: int)
    requires k >= 1
    ensures k * DayMs > 0 && (k * DayMs) % DayMs == 0
  {
  }

  /** canCreateNext: a next deadline exists, the task recurs, and the end date (inclusive) is not passed. */
  function CanCreateNext(task: Option<TaskState>, next: Option<Millis>): (r: bool)
    ensures r <==> (task.Some? && next.Some?
                    && task.value.recurrenceType.Some? && task.value.recurrenceType != Some(NONE)
                    && (task.value.recurrenceEndAt.None? || next.value <= task.value.recurrenceEndAt.value))
  {
    if task.None? || next.None? then false
    else if task.value.recurrenceType.None? || task.value.recurrenceType == Some(NONE) then false
    else if task.value.recurrenceEndAt.None? then true
    else !(next.value > task.value.recurrenceEndAt.value)
  }
}
