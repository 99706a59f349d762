/**
 * The deleted-tasks page: the keyword, raw status, date-range and quick
 * deadline filters over the soft-deleted tasks, the list sorted by deadline,
 * the deadline colour tag and the truncated cells. The current time is an
 * input.
 */
module DeletedTasksView {
  import opened Wrappers
  import opened Text
  import opened Time
  import opened JsArray
  import opened ClientTypes
  import opened Deadlines

  /** The page's filter controls; None is 'ALL' or an unset end of the range picker. */
  datatype Filters = Filters(
    search: string,
    status: Option<string>,
    rangeStart: Option<Millis>,
    rangeEnd: Option<Millis>,
    quickDays: Option<int>)

  /** The range filter is active only when both ends are picked. */
  predicate RangeActive(f: Filters) {
    f.rangeStart.Some? && f.rangeEnd.Some?
  }

  /** The filter callback of filteredTasks, in its order of checks. */
  predicate Keeps(t: TaskResponse, f: Filters, now: Millis) {
    var keyword := Keyword(f.search);
    if keyword != "" && !Contains(SearchBlob(t), keyword) then false
    else if f.status.Some? && t.status != f.status then false
    else if RangeActive(f) && t.deadline.None? then false
    else if RangeActive(f) && (t.deadline.value < StartOfDay(f.rangeStart.value) || t.deadline.value > EndOfDay(f.rangeEnd.value)) then false
    else if f.quickDays.None? then true
    else if t.deadline.None? then false
    else now <= t.deadline.value <= QuickWindowEnd(now, f.quickDays.value)
  }

  /** The range, as calendar days: a deadline is in range exactly when its day lies between the two picked days. */
  predicate InRangeDays(t: TaskResponse, f: Filters)
    requires RangeActive(f)
  {
    t.deadline.Some? && DayKey(f.rangeStart.value) <= DayKey(t.deadline.value) <= DayKey(f.rangeEnd.value)
  }

  /**
   * A task is kept exactly when every filter that is set lets it through: the
   * keyword occurs in its fields, the status is the selected one as the server
   * sent it (a legacy PENDING does not pass TODO), the deadline's day is within
   * a fully picked range, and the deadline is within the quick window.
   */
  lemma KeepsIff(t: TaskResponse, f: Filters, now: Millis)
    ensures Keeps(t, f, now) <==>
      MatchesKeyword(t, Keyword(f.search))
      && (f.status.None? || t.status == f.status)
      && (RangeActive(f) ==> InRangeDays(t, f))
      && (f.quickDays.None? || (t.deadline.Some? && now <= t.deadline.value <= QuickWindowEnd(now, f.quickDays.value)))
  {
    if RangeActive(f) && t.deadline.Some? {
      SameDayIffRange(t.deadline.value, f.rangeStart.value, f.rangeEnd.value);
    }
  }

  lemma SameDayIffRange(d: Millis, a: Millis, b: Millis)
    ensures StartOfDay(a) <= d <= EndOfDay(b) <==> DayKey(a) <= DayKey(d) <= DayKey(b)
  {
    var ka, kb, kd := DayKey(a), DayKey(b), DayKey(d);
    assert StartOfDay(a) == ka * DayMs;
    assert EndOfDay(b) == kb * DayMs + DayMs - 1;
    assert kd * DayMs <= d < kd * DayMs + DayMs;
    if ka <= kd {
      assert ka * DayMs <= kd * DayMs;
    } else {
      assert kd + 1 <= ka;
      assert (kd + 1) * DayMs <= ka * DayMs;
    }
    if kd <= kb {
      assert kd * DayMs <= kb * DayMs;
    } else {
      assert kb + 1 <= kd;
      assert (kb + 1) * DayMs <= kd * DayMs;
    }
  }

  /** A half-picked range filters nothing. */
  lemma HalfRangeIgnored(t: TaskResponse, f: Filters, now: Millis)
    requires !RangeActive(f)
    ensures Keeps(t, f, now) == Keeps(t, f.(rangeStart := None, rangeEnd := None), now)
  {
  }

  function KeepsWith(f: Filters, now: Millis): TaskResponse -> bool {
    (t: TaskResponse) => Keeps(t, f, now)
  }

  /** filteredTasks: the kept tasks, sorted by deadline with a missing deadline as MAX_SAFE_INTEGER. */
  function DeletedList(tasks: seq<TaskResponse>, f: Filters, now: Millis): seq<TaskResponse> {
    Sort(Filter(tasks, KeepsWith(f, now)), ByDeadline())
  }

  lemma DeletedListMember(tasks: seq<TaskResponse>, f: Filters, now: Millis, t: TaskResponse)
    ensures t in DeletedList(tasks, f, now) <==> t in tasks && Keeps(t, f, now)
  {
    SortMember(Filter(tasks, KeepsWith(f, now)), ByDeadline(), t);
    FilterMember(tasks, KeepsWith(f, now), t);
  }

  /**
   * The page lists exactly the kept tasks, each as often as in the input,
   * earliest deadline first; tasks with the same deadline stay in input order.
   */
  lemma DeletedListExact(tasks: seq<TaskResponse>, f: Filters, now: Millis, at: int)
    ensures var r := DeletedList(tasks, f, now);
      (forall t :: t in r <==> t in tasks && Keeps(t, f, now))
      && multiset(r) <= multiset(tasks)
      && (forall i, j | 0 <= i < j < |r| :: DeadlineKey(r[i]) <= DeadlineKey(r[j]))
      && Filter(r, KeyIs(at)) == Filter(Filter(tasks, KeepsWith(f, now)), KeyIs(at))
  {
    forall t ensures t in DeletedList(tasks, f, now) <==> t in tasks && Keeps(t, f, now) {
      DeletedListMember(tasks, f, now, t);
    }
    SortByDeadlineAscending(Filter(tasks, KeepsWith(f, now)));
    SortByDeadlineStable(Filter(tasks, KeepsWith(f, now)), at);
  }

  /** A task without a deadline comes after every task whose deadline is before MAX_SAFE_INTEGER. */
  lemma MissingDeadlinesLast(tasks: seq<TaskResponse>, f: Filters, now: Millis, i: int, j: int)
    requires 0 <= i < |DeletedList(tasks, f, now)| && 0 <= j < |DeletedList(tasks, f, now)|
    requires DeletedList(tasks, f, now)[i].deadline.None?
    requires DeletedList(tasks, f, now)[j].deadline.Some? && DeletedList(tasks, f, now)[j].deadline.value < MaxSafeInteger
    ensures j < i
  {
    MissingAfterPresent(Filter(tasks, KeepsWith(f, now)), i, j);
  }

  lemma MissingAfterPresent(s: seq<TaskResponse>, i: int, j: int)
    requires 0 <= i < |Sort(s, ByDeadline())| && 0 <= j < |Sort(s, ByDeadline())|
    requires Sort(s, ByDeadline())[i].deadline.None?
    requires Sort(s, ByDeadline())[j].deadline.Some? && Sort(s, ByDeadline())[j].deadline.value < MaxSafeInteger
    ensures j < i
  {
    SortByDeadlineAscending(s);
    if i < j {
      assert DeadlineKey(Sort(s, ByDeadline())[i]) <= DeadlineKey(Sort(s, ByDeadline())[j]);
    }
  }

  /** getDeadlineColor at the moment now: red within 24 hours (or past), orange within a week, none otherwise. */
  function DeadlineColor(deadline: Option<Millis>, now: Millis): (r: Option<string>)
    ensures deadline.None? ==> r.None?
    ensures deadline.Some? ==>
      (r == Some("red") <==> deadline.value - now <= 24 * HourMs)
      && (r == Some("orange") <==> 24 * HourMs < deadline.value - now <= 24 * 7 * HourMs)
      && (r.None? <==> deadline.value - now > 24 * 7 * HourMs)
  {
    if deadline.None? then None
    else
      var left := deadline.value - now;
      if left <= 24 * HourMs then Some("red")
      else if left <= 24 * 7 * HourMs then Some("orange")
      else None
  }

  /** The tag colour agrees with the calendar's urgency, except that YELLOW deadlines get no colour. */
  lemma DeadlineColorMatchesUrgency(deadline: Option<Millis>, now: Millis)
    ensures DeadlineColor(deadline, now) == Some("red") <==> DeadlineUrgency(deadline, now) == Red
    ensures DeadlineColor(deadline, now) == Some("orange") <==> DeadlineUrgency(deadline, now) == Orange
    ensures DeadlineColor(deadline, now).None? <==> DeadlineUrgency(deadline, now) in {Yellow, NoUrgency}
  {
  }

  /** truncateText: '-' for no text, the text when it fits, else its first maxLength characters and "...". */
  function TruncateText(text: Option<string>, maxLength: nat): (r: string)
    ensures text.None? || text.value == "" ==> r == "-"
    ensures text.Some? && 0 < |text.value| <= maxLength ==> r == text.value
    ensures text.Some? && |text.value| > maxLength ==> |r| == maxLength + 3 && r[..maxLength] == text.value[..maxLength] && r[maxLength..] == "..."
  {
    if text.None? || text.value == "" then "-"
    else if |text.value| <= maxLength then text.value
    else text.value[..maxLength] + "..."
  }

  /** A cell is never empty and never longer than maxLength characters plus the ellipsis. */
  lemma TruncateBounded(text: Option<string>, maxLength: nat)
    ensures 0 < |TruncateText(text, maxLength)| <= maxLength + 3
  {
    if text.Some? && text.value != "" && |text.value| > maxLength {
      assert |TruncateText(text, maxLength)| == maxLength + 3;
    }
  }
}
