/**
 * The deadline calendar widget: tasks grouped by the day of their deadline,
 * each day's list in deadline order, the urgency of a day, the truncated cell
 * list, the year panel's month lists, the week panel, and the wheel gesture
 * that pages through periods. The current time is an input.
 */
module TaskCalendar {
  import opened Wrappers
  import opened Time
  import opened JsArray
  import opened ClientTypes
  import opened Deadlines

  /** getUrgencyColor: the tag colour of an urgency, none for NONE. */
  function UrgencyColor(u: Urgency): (r: Option<string>)
    ensures r.None? <==> u == NoUrgency
  {
    match u
    case Red => Some("red")
    case Orange => Some("orange")
    case Yellow => Some("gold")
    case NoUrgency => None
  }

  function UrgencyIs(u: Urgency, now: Millis): TaskResponse -> bool {
    (t: TaskResponse) => DeadlineUrgency(t.deadline, now) == u
  }

  /**
   * getDayUrgency: the most severe urgency among the day's tasks, NONE for a
   * day without tasks or whose tasks have no deadline.
   */
  function DayUrgency(tasks: seq<TaskResponse>, now: Millis): (r: Urgency)
    ensures forall i | 0 <= i < |tasks| :: Severity(DeadlineUrgency(tasks[i].deadline, now)) <= Severity(r)
    ensures r != NoUrgency ==> exists i | 0 <= i < |tasks| :: DeadlineUrgency(tasks[i].deadline, now) == r
  {
    if Any(tasks, UrgencyIs(Red, now)) then Red
    else if Any(tasks, UrgencyIs(Orange, now)) then Orange
    else if Any(tasks, UrgencyIs(Yellow, now)) then Yellow
    else NoUrgency
  }

  /** The task is due on day key. */
  function OnDay(key: int): TaskResponse -> bool {
    (t: TaskResponse) => t.deadline.Some? && DayKey(t.deadline.value) == key
  }

  /** The days on which some task is due. */
  function DeadlineDays(tasks: seq<TaskResponse>): set<int> {
    set t | t in tasks && t.deadline.Some? :: DayKey(t.deadline.value)
  }

  /** What the calendar lists for day key: the tasks due that day, by deadline. */
  function Bucket(tasks: seq<TaskResponse>, key: int): seq<TaskResponse> {
    Sort(Filter(tasks, OnDay(key)), ByDeadline())
  }

  lemma DeadlineDaysSnoc(s: seq<TaskResponse>, t: TaskResponse)
    ensures DeadlineDays(s + [t]) == DeadlineDays(s) + (if t.deadline.Some? then {DayKey(t.deadline.value)} else {})
  {
    assert forall x :: x in s + [t] <==> x in s || x == t;
  }

  lemma FilterSnoc(s: seq<TaskResponse>, t: TaskResponse, p: TaskResponse -> bool)
    ensures Filter(s + [t], p) == Filter(s, p) + (if p(t) then [t] else [])
  {
    FilterAppend(s, [t], p);
    FilterSingle(t, p);
  }

  /** tasksByDate: group the tasks with a deadline by its day, then sort every group. */
  method TasksByDate(tasks: seq<TaskResponse>) returns (grouped: map<int, seq<TaskResponse>>)
    ensures grouped.Keys == DeadlineDays(tasks)
    ensures forall k | k in grouped :: grouped[k] == Bucket(tasks, k)
  {
    grouped := GroupByDay(tasks);
    grouped := SortGroups(tasks, grouped);
  }

  /** The groups hold, for every day some task of s is due on, the tasks of s due that day. */
  ghost predicate GroupsOf(groups: map<int, seq<TaskResponse>>, s: seq<TaskResponse>) {
    groups.Keys == DeadlineDays(s) && forall k | k in groups :: groups[k] == Filter(s, OnDay(k))
  }

  /** One push of the forEach keeps the groups those of the tasks seen so far. */
  lemma GroupPush(groups: map<int, seq<TaskResponse>>, s: seq<TaskResponse>, t: TaskResponse)
    requires GroupsOf(groups, s)
    ensures t.deadline.None? ==> GroupsOf(groups, s + [t])
    ensures t.deadline.Some? ==>
      var key := DayKey(t.deadline.value);
      GroupsOf(groups[key := (if key in groups then groups[key] else []) + [t]], s + [t])
  {
    DeadlineDaysSnoc(s, t);
    if t.deadline.Some? {
      GroupPushDue(groups, s, t, DayKey(t.deadline.value));
    } else {
      forall k | k in groups ensures groups[k] == Filter(s + [t], OnDay(k)) {
        FilterSnoc(s, t, OnDay(k));
      }
    }
  }

  lemma GroupPushDue(groups: map<int, seq<TaskResponse>>, s: seq<TaskResponse>, t: TaskResponse, key: int)
    requires GroupsOf(groups, s)
    requires t.deadline.Some? && key == DayKey(t.deadline.value)
    requires DeadlineDays(s + [t]) == DeadlineDays(s) + {key}
    ensures GroupsOf(groups[key := (if key in groups then groups[key] else []) + [t]], s + [t])
  {
    if key !in groups {
      FilterNoneOnDay(s, key);
    }
    PushedGroups(groups, s, t, key);
    PushedKeys(groups, (if key in groups then groups[key] else []) + [t], key, DeadlineDays(s), DeadlineDays(s + [t]));
  }

  lemma PushedKeys(groups: map<int, seq<TaskResponse>>, v: seq<TaskResponse>, key: int, before: set<int>, after: set<int>)
    requires groups.Keys == before && after == before + {key}
    ensures groups[key := v].Keys == after
  {
  }

  /** Every group after the push is that of s + [t], given that a missing group had no task of s. */
  lemma PushedGroups(groups: map<int, seq<TaskResponse>>, s: seq<TaskResponse>, t: TaskResponse, key: int)
    requires forall k | k in groups :: groups[k] == Filter(s, OnDay(k))
    requires key in groups || Filter(s, OnDay(key)) == []
    requires t.deadline.Some? && key == DayKey(t.deadline.value)
    ensures var after := groups[key := (if key in groups then groups[key] else []) + [t]];
      forall k | k in after :: after[k] == Filter(s + [t], OnDay(k))
  {
    var after := groups[key := (if key in groups then groups[key] else []) + [t]];
    forall k | k in after ensures after[k] == Filter(s + [t], OnDay(k)) {
      if k == key {
        PushedGroup(s, t, key, k, if key in groups then groups[key] else []);
      } else {
        PushedGroup(s, t, key, k, groups[k]);
      }
    }
  }

  /** The group of day k after the push: one longer when t is due on k, unchanged otherwise. */
  lemma PushedGroup(s: seq<TaskResponse>, t: TaskResponse, key: int, k: int, before: seq<TaskResponse>)
    requires before == Filter(s, OnDay(k))
    requires t.deadline.Some? && key == DayKey(t.deadline.value)
    ensures (if k == key then before + [t] else before) == Filter(s + [t], OnDay(k))
  {
    FilterSnoc(s, t, OnDay(k));
  }

  /** The forEach that pushes each task with a deadline onto the group of its day. */
  method GroupByDay(tasks: seq<TaskResponse>) returns (grouped: map<int, seq<TaskResponse>>)
    ensures grouped.Keys == DeadlineDays(tasks)
    ensures forall k | k in grouped :: grouped[k] == Filter(tasks, OnDay(k))
  {
    grouped := map[];
    for i := 0 to |tasks|
      invariant GroupsOf(grouped, tasks[..i])
    {
      var task := tasks[i];
      assert tasks[..i + 1] == tasks[..i] + [task];
      GroupPush(grouped, tasks[..i], task);
      if task.deadline.Some? {
        var key := DayKey(task.deadline.value);
        if key !in grouped {
          grouped := grouped[key := []];
        }
        grouped := grouped[key := grouped[key] + [task]];
      }
    }
    assert tasks[..|tasks|] == tasks;
  }

  lemma FilterNoneOnDay(s: seq<TaskResponse>, key: int)
    requires key !in DeadlineDays(s)
    ensures Filter(s, OnDay(key)) == []
  {
    forall i | 0 <= i < |s| ensures !OnDay(key)(s[i]) {
      assert s[i] in s;
    }
    FilterNone(s, OnDay(key));
  }

  /** The forEach over the keys that sorts each group by deadline. */
  method SortGroups(ghost tasks: seq<TaskResponse>, groups: map<int, seq<TaskResponse>>) returns (grouped: map<int, seq<TaskResponse>>)
    requires forall k | k in groups :: groups[k] == Filter(tasks, OnDay(k))
    ensures grouped.Keys == groups.Keys
    ensures forall k | k in grouped :: grouped[k] == Bucket(tasks, k)
  {
    grouped := groups;
    var keys := grouped.Keys;
    while keys != {}
      invariant keys <= grouped.Keys == groups.Keys
      invariant forall k | k in grouped :: grouped[k] == if k in keys then Filter(tasks, OnDay(k)) else Bucket(tasks, k)
      decreases keys
    {
      assert exists k :: k in keys by {
        if forall k :: k !in keys {
        }
      }
      var key :| key in keys;
      grouped := grouped[key := Sort(grouped[key], ByDeadline())];
      keys := keys - {key};
    }
  }

  /** tasksByDate[key] ?? []: a day with no group lists nothing. */
  function DayTasks(grouped: map<int, seq<TaskResponse>>, key: int): seq<TaskResponse> {
    if key in grouped then grouped[key] else []
  }

  /**
   * Whatever day is looked up, the calendar lists exactly the tasks due that
   * day, ascending by deadline, tasks due at the same moment in list order.
   */
  lemma DayTasksAreBucket(tasks: seq<TaskResponse>, grouped: map<int, seq<TaskResponse>>, key: int, at: Millis)
    requires grouped.Keys == DeadlineDays(tasks)
    requires forall k | k in grouped :: grouped[k] == Bucket(tasks, k)
    ensures var day := DayTasks(grouped, key);
      (forall t :: t in day <==> t in tasks && t.deadline.Some? && DayKey(t.deadline.value) == key)
      && (forall i, j | 0 <= i < j < |day| :: day[i].deadline.value <= day[j].deadline.value)
      && Filter(day, KeyIs(at)) == Filter(Filter(tasks, OnDay(key)), KeyIs(at))
  {
    if key !in grouped {
      FilterNoneOnDay(tasks, key);
      forall t ensures t in tasks && t.deadline.Some? && DayKey(t.deadline.value) == key ==> false {
        FilterMember(tasks, OnDay(key), t);
      }
    } else {
      BucketFacts(tasks, key, at);
    }
  }

  lemma BucketMember(tasks: seq<TaskResponse>, key: int, t: TaskResponse)
    ensures t in Bucket(tasks, key) <==> t in tasks && t.deadline.Some? && DayKey(t.deadline.value) == key
  {
    SortMember(Filter(tasks, OnDay(key)), ByDeadline(), t);
    FilterMember(tasks, OnDay(key), t);
  }

  lemma BucketFacts(tasks: seq<TaskResponse>, key: int, at: Millis)
    ensures var day := Bucket(tasks, key);
      (forall t :: t in day <==> t in tasks && t.deadline.Some? && DayKey(t.deadline.value) == key)
      && (forall i, j | 0 <= i < j < |day| :: day[i].deadline.value <= day[j].deadline.value)
      && Filter(day, KeyIs(at)) == Filter(Filter(tasks, OnDay(key)), KeyIs(at))
  {
    var due := Filter(tasks, OnDay(key));
    forall t ensures t in Bucket(tasks, key) <==> t in tasks && t.deadline.Some? && DayKey(t.deadline.value) == key {
      BucketMember(tasks, key, t);
    }
    forall i | 0 <= i < |due| ensures due[i].deadline.Some? {
      FilterMember(tasks, OnDay(key), due[i]);
    }
    SortedDeadlineValues(due, Bucket(tasks, key));
    SortByDeadlineStable(due, at);
  }

  /** The month cell: at most three tasks, then "+hidden more". */
  datatype CellView = CellView(visible: seq<TaskResponse>, hidden: nat)

  const MaxVisible: nat := 3

  function CellSummary(dayTasks: seq<TaskResponse>): (r: CellView)
    ensures |r.visible| + r.hidden == |dayTasks|
    ensures r.visible == dayTasks[..|r.visible|]
    ensures |r.visible| <= MaxVisible
    ensures r.hidden > 0 <==> |dayTasks| > MaxVisible
  {
    var visible := if |dayTasks| <= MaxVisible then dayTasks else dayTasks[..MaxVisible];
    CellView(visible, |dayTasks| - |visible|)
  }

  /** A truncated cell always shows the full three tasks; a short day shows all of them. */
  lemma CellShowsAsManyAsFit(dayTasks: seq<TaskResponse>)
    ensures var c := CellSummary(dayTasks);
      (c.hidden > 0 ==> |c.visible| == MaxVisible) && (c.hidden == 0 ==> c.visible == dayTasks)
  {
  }

  function HasDeadline(): TaskResponse -> bool {
    (t: TaskResponse) => t.deadline.Some?
  }

  function DueWithin(start: Millis, end: Millis): TaskResponse -> bool {
    (t: TaskResponse) => start <= t.deadline.GetOr(0) <= end
  }

  /** The year panel's list for the month [monthStart, monthEnd]: the tasks due in it, by deadline. */
  function MonthTasks(tasks: seq<TaskResponse>, monthStart: Millis, monthEnd: Millis): seq<TaskResponse> {
    Sort(MonthDue(tasks, monthStart, monthEnd), ByDeadline())
  }

  /** The two filters of the month's list, before it is sorted. */
  function MonthDue(tasks: seq<TaskResponse>, monthStart: Millis, monthEnd: Millis): seq<TaskResponse> {
    Filter(Filter(tasks, HasDeadline()), DueWithin(monthStart, monthEnd))
  }

  function IsUrgent(now: Millis): TaskResponse -> bool {
    (t: TaskResponse) => DeadlineUrgency(t.deadline, now) == Red || DeadlineUrgency(t.deadline, now) == Orange
  }

  /** The month card's urgent count: RED and ORANGE tasks of the month. */
  function UrgentCount(tasks: seq<TaskResponse>, monthStart: Millis, monthEnd: Millis, now: Millis): nat {
    Count(MonthTasks(tasks, monthStart, monthEnd), IsUrgent(now))
  }

  lemma MonthMember(tasks: seq<TaskResponse>, monthStart: Millis, monthEnd: Millis, t: TaskResponse)
    ensures t in MonthTasks(tasks, monthStart, monthEnd) <==> t in tasks && t.deadline.Some? && monthStart <= t.deadline.value <= monthEnd
  {
    var withDeadline := Filter(tasks, HasDeadline());
    SortMember(MonthDue(tasks, monthStart, monthEnd), ByDeadline(), t);
    FilterMember(withDeadline, DueWithin(monthStart, monthEnd), t);
    FilterMember(tasks, HasDeadline(), t);
  }

  /** The tasks of the month before sorting all have a deadline. */
  lemma MonthDueHaveDeadlines(tasks: seq<TaskResponse>, monthStart: Millis, monthEnd: Millis)
    ensures forall i | 0 <= i < |MonthDue(tasks, monthStart, monthEnd)| :: MonthDue(tasks, monthStart, monthEnd)[i].deadline.Some?
  {
    var withDeadline := Filter(tasks, HasDeadline());
    var due := MonthDue(tasks, monthStart, monthEnd);
    forall i | 0 <= i < |due| ensures due[i].deadline.Some? {
      FilterMember(withDeadline, DueWithin(monthStart, monthEnd), due[i]);
      var k :| 0 <= k < |withDeadline| && withDeadline[k] == due[i];
    }
  }

  /** The month's list is earliest first. */
  lemma MonthOrder(tasks: seq<TaskResponse>, monthStart: Millis, monthEnd: Millis)
    ensures DeadlinesAscending(MonthTasks(tasks, monthStart, monthEnd))
  {
    MonthDueHaveDeadlines(tasks, monthStart, monthEnd);
    SortedDeadlineValues(MonthDue(tasks, monthStart, monthEnd), MonthTasks(tasks, monthStart, monthEnd));
  }

  /** A month lists exactly the tasks due within it, earliest first. */
  lemma MonthPanel(tasks: seq<TaskResponse>, monthStart: Millis, monthEnd: Millis)
    ensures var m := MonthTasks(tasks, monthStart, monthEnd);
      (forall t :: t in m <==> t in tasks && t.deadline.Some? && monthStart <= t.deadline.value <= monthEnd)
      && (forall i, j | 0 <= i < j < |m| :: m[i].deadline.value <= m[j].deadline.value)
  {
    var m := MonthTasks(tasks, monthStart, monthEnd);
    forall t ensures t in m <==> t in tasks && t.deadline.Some? && monthStart <= t.deadline.value <= monthEnd {
      MonthMember(tasks, monthStart, monthEnd, t);
    }
    MonthOrder(tasks, monthStart, monthEnd);
  }

  /** Only tasks due within a week from now, or overdue, count as urgent; a month whose first task is later has none. */
  lemma MonthUrgency(tasks: seq<TaskResponse>, monthStart: Millis, monthEnd: Millis, now: Millis)
    ensures var m := MonthTasks(tasks, monthStart, monthEnd);
      UrgentCount(tasks, monthStart, monthEnd, now) <= |m|
      && (forall i | 0 <= i < |m| :: m[i].deadline.Some? && (IsUrgent(now)(m[i]) <==> m[i].deadline.value - now <= WeekMs))
      && (m != [] && m[0].deadline.Some? && m[0].deadline.value - now > WeekMs ==> UrgentCount(tasks, monthStart, monthEnd, now) == 0)
  {
    var m := MonthTasks(tasks, monthStart, monthEnd);
    MonthPanel(tasks, monthStart, monthEnd);
    forall i | 0 <= i < |m| ensures m[i].deadline.Some? {
      assert m[i] in m;
    }
    if m != [] && m[0].deadline.value - now > WeekMs {
      forall i | 0 <= i < |m| ensures !IsUrgent(now)(m[i]) {
        if i > 0 {
          assert m[0].deadline.value <= m[i].deadline.value;
        }
      }
      FilterNone(m, IsUrgent(now));
    }
  }

  /** dayjs startOf('week') in the default locale, whose weeks start on Sunday; day 0 was a Thursday. */
  function WeekStart(t: Millis): (r: Millis)
    ensures (DayKey(r) + 4) % 7 == 0
    ensures r <= t < r + WeekMs
  {
    StartOfDay(t) - ((DayKey(t) + 4) % 7) * DayMs
  }

  /** The week panel's seven days, Sunday first. */
  function WeekDays(t: Millis): (r: seq<Millis>)
    ensures |r| == 7
  {
    seq(7, i requires 0 <= i < 7 => PlusDays(WeekStart(t), i))
  }

  /** The selected day is one of the week panel's days, and the panel's days are consecutive. */
  lemma WeekShowsSelectedDay(t: Millis)
    ensures exists i | 0 <= i < 7 :: DayKey(WeekDays(t)[i]) == DayKey(t)
    ensures forall i | 0 <= i < 6 :: DayKey(WeekDays(t)[i + 1]) == DayKey(WeekDays(t)[i]) + 1
  {
    var w := WeekStart(t);
    var i := (DayKey(t) + 4) % 7;
    assert WeekDays(t)[i] == StartOfDay(t);
    forall j | 0 <= j < 6 ensures DayKey(WeekDays(t)[j + 1]) == DayKey(WeekDays(t)[j]) + 1 {
      assert WeekDays(t)[j + 1] == WeekDays(t)[j] + DayMs;
    }
  }

  datatype ViewMode = WeekView | MonthView | YearView

  datatype PeriodUnit = Week | Month | Year

  /** movePeriod: the unit the arrows and the wheel move by, and the direction. */
  datatype Shift = Shift(unit: PeriodUnit, direction: int)

  function MovePeriod(mode: ViewMode, direction: int): (r: Shift)
    ensures r.direction == direction
    ensures r.unit == Week <==> mode == WeekView
    ensures r.unit == Year <==> mode == YearView
  {
    var unit := if mode == WeekView then Week else if mode == YearView then Year else Month;
    Shift(unit, direction)
  }

  /** The year selector: thirteen years centred on the selected one. */
  function YearOptions(center: int): (r: seq<int>)
    ensures |r| == 13
  {
    seq(13, i requires 0 <= i < 13 => center - 6 + i)
  }

  /** The selected year is an option, in the middle, and the options run one year apart. */
  lemma YearOptionsCentred(center: int)
    ensures YearOptions(center)[6] == center
    ensures forall i | 0 <= i < 12 :: YearOptions(center)[i + 1] == YearOptions(center)[i] + 1
    ensures forall y :: y in YearOptions(center) <==> center - 6 <= y <= center + 6
  {
    forall y | center - 6 <= y <= center + 6 ensures y in YearOptions(center) {
      assert YearOptions(center)[y - center + 6] == y;
    }
  }

  const WheelThreshold: int := 260
  const WheelThrottleMs: int := 180

  /** After one wheel event: the accumulated distance, the time of the last move, and the move if any. */
  datatype WheelOutcome = WheelOutcome(delta: int, lastMoveTs: int, move: Option<int>)

  function Abs(x: int): nat {
    if x < 0 then -x else x
  }

  /**
   * handleCalendarWheel: the scroll distance accumulates; once it reaches 260
   * and 180 ms have passed since the last move, the period moves in the
   * direction of the accumulated distance and the distance resets.
   */
  function WheelStep(delta: int, lastMoveTs: int, deltaY: int, now: int): (r: WheelOutcome)
    ensures r.move.Some? <==> Abs(delta + deltaY) >= WheelThreshold && now - lastMoveTs >= WheelThrottleMs
    ensures r.move.Some? ==> r.delta == 0 && r.lastMoveTs == now && (r.move.value == 1 <==> delta + deltaY > 0) && (r.move.value == 1 || r.move.value == -1)
    ensures r.move.None? ==> r.delta == delta + deltaY && r.lastMoveTs == lastMoveTs
  {
    var acc := delta + deltaY;
    if Abs(acc) < WheelThreshold then WheelOutcome(acc, lastMoveTs, None)
    else if now - lastMoveTs < WheelThrottleMs then WheelOutcome(acc, lastMoveTs, None)
    else WheelOutcome(0, now, Some(if acc > 0 then 1 else -1))
  }

  /** Two moves by the wheel are at least 180 ms apart, whatever the events between them. */
  lemma {:induction false} WheelThrottles(delta: int, lastMoveTs: int, events: seq<(int, int)>)
    requires forall i | 0 <= i < |events| :: events[i].1 >= lastMoveTs
    ensures var r := WheelRun(delta, lastMoveTs, events);
      r.lastMoveTs == lastMoveTs || r.lastMoveTs - lastMoveTs >= WheelThrottleMs
    decreases |events|
  {
    if events != [] {
      var o := WheelStep(delta, lastMoveTs, events[0].0, events[0].1);
      if o.move.None? {
        WheelThrottles(o.delta, o.lastMoveTs, events[1..]);
      } else {
        assert forall i | 0 <= i < |events[1..]| :: events[1..][i].1 >= lastMoveTs;
      }
    }
  }

  /** A run of wheel events (deltaY, time) from the given state, up to and including the first move. */
  function WheelRun(delta: int, lastMoveTs: int, events: seq<(int, int)>): WheelOutcome
    decreases |events|
  {
    if events == [] then WheelOutcome(delta, lastMoveTs, None)
    else
      var o := WheelStep(delta, lastMoveTs, events[0].0, events[0].1);
      if o.move.Some? then o else WheelRun(o.delta, o.lastMoveTs, events[1..])
  }

  /** The wheel refs of one widget instance and the moves it triggered. */
  class CalendarWheel {
    var wheelDelta: int
    var lastWheelTs: int
    var viewMode: ViewMode
    var shifts: seq<Shift>

    constructor()
      ensures wheelDelta == 0 && lastWheelTs == 0 && viewMode == MonthView && shifts == []
    {
      wheelDelta, lastWheelTs, viewMode, shifts := 0, 0, MonthView, [];
    }

    method HandleWheel(deltaY: int, now: int)
      modifies this
      ensures var o := WheelStep(old(wheelDelta), old(lastWheelTs), deltaY, now);
        wheelDelta == o.delta && lastWheelTs == o.lastMoveTs && viewMode == old(viewMode)
        && shifts == old(shifts) + (if o.move.Some? then [MovePeriod(viewMode, o.move.value)] else [])
    {
      wheelDelta := wheelDelta + deltaY;
      if Abs(wheelDelta) < WheelThreshold {
        return;
      }
      if now - lastWheelTs < WheelThrottleMs {
        return;
      }
      lastWheelTs := now;
      var direction := if wheelDelta > 0 then 1 else -1;
      wheelDelta := 0;
      shifts := shifts + [MovePeriod(viewMode, direction)];
    }
  }
}
