/**
 * The create/edit task modal: the values it fills in when it opens, the
 * payload it hands to the page, and the date and deadline validators. The
 * current time is an input.
 */
module TaskForm {
  import opened Wrappers
  import opened Text
  import opened Time
  import opened ClientTypes

  /** The form fields; a reset field is None. */
  datatype FormValues = FormValues(
    title: Option<string>,
    description: Option<string>,
    priority: Option<string>,
    status: Option<string>,
    deadline: Option<Millis>)

  /** .second(0).millisecond(0): the start of the minute. */
  function ZeroSeconds(t: Millis): (r: Millis)
    ensures r % MinuteMs == 0
    ensures r <= t < r + MinuteMs
  {
    t - t % MinuteMs
  }

  lemma ZeroSecondsIdempotent(t: Millis)
    ensures ZeroSeconds(ZeroSeconds(t)) == ZeroSeconds(t)
  {
  }

  /** The deadline a new task starts with: one hour ahead, at the start of its minute. */
  function DefaultDeadline(now: Millis): Millis {
    ZeroSeconds(now + HourMs)
  }

  /** What the modal fills in when it opens, for editing the given task or for creating one. */
  function OpenValues(initial: Option<TaskRequest>, now: Millis): (r: FormValues)
    ensures initial.None? ==> r == FormValues(None, None, Some("LOW"), Some("PENDING"), Some(DefaultDeadline(now)))
    ensures initial.Some? ==>
      r.title == Some(initial.value.title)
      && r.description == Some(initial.value.description.GetOr(""))
      && r.priority == initial.value.priority && r.status == initial.value.status
      && r.deadline == Some(ZeroSeconds(initial.value.deadline.GetOr(now + HourMs)))
  {
    match initial
    case None => FormValues(None, None, Some("LOW"), Some("PENDING"), Some(DefaultDeadline(now)))
    case Some(v) =>
      var deadline := if v.deadline.Some? then ZeroSeconds(v.deadline.value) else DefaultDeadline(now);
      FormValues(Some(v.title), Some(v.description.GetOr("")), v.priority, v.status, Some(deadline))
  }

  /** validateFutureDeadline: None when valid, otherwise the message shown under the field. */
  function ValidateFutureDeadline(value: Option<Millis>, now: Millis): (r: Option<string>)
    ensures value.None? ==> r == Some("Please select deadline")
    ensures value.Some? ==> (r.None? <==> value.value > now)
    ensures value.Some? && value.value <= now ==> r == Some("Deadline must be in the future")
  {
    if value.None? then Some("Please select deadline")
    else if !(value.value > now) then Some("Deadline must be in the future")
    else None
  }

  /** disabledDate: the picker greys out exactly the days before today; no date is never disabled. */
  function DisabledDate(current: Option<Millis>, now: Millis): (r: bool)
    ensures r <==> current.Some? && DayKey(current.value) < DayKey(now)
  {
    current.Some? && current.value < StartOfDay(now)
  }

  /** The default deadline of a new task is valid and on a day the picker offers, whatever the time. */
  lemma DefaultDeadlineIsValid(now: Millis)
    ensures ValidateFutureDeadline(OpenValues(None, now).deadline, now).None?
    ensures !DisabledDate(OpenValues(None, now).deadline, now)
    ensures now < DefaultDeadline(now) <= now + HourMs
  {
    assert DefaultDeadline(now) > now + HourMs - MinuteMs;
  }

  /** The validated fields handleOk builds the payload from. */
  datatype Validated = Validated(title: string, description: Option<string>, priority: Option<string>, status: Option<string>, deadline: Millis)

  /** handleOk's payload: title trimmed, description trimmed or '', deadline at the start of its minute. */
  function Payload(v: Validated): (r: TaskRequest)
    ensures r.title == Trim(v.title)
    ensures r.description == Some(Trim(v.description.GetOr("")))
    ensures r.priority == v.priority && r.status == v.status
    ensures r.deadline.Some? && r.deadline.value % MinuteMs == 0
    ensures r.deadline.value <= v.deadline < r.deadline.value + MinuteMs
  {
    var description := if v.description.Some? && Trim(v.description.value) != "" then Trim(v.description.value) else "";
    TrimEmpty();
    TaskRequest(Trim(v.title), Some(description), v.priority, v.status, Some(ZeroSeconds(v.deadline)))
  }

  lemma TrimEmpty()
    ensures Trim("") == ""
  {
    TrimEmptyIff("");
  }

  /**
   * Opening the modal on a task and saving it unchanged sends its title and
   * description back trimmed (a missing description as ''), and the same
   * priority, status and deadline minute, so an edit of another field never
   * moves the deadline.
   */
  lemma EditRoundTrip(initial: TaskRequest, now: Millis)
    requires initial.deadline.Some?
    ensures var o := OpenValues(Some(initial), now);
      var p := Payload(Validated(o.title.value, o.description, o.priority, o.status, o.deadline.value));
      p.title == Trim(initial.title)
      && p.description == Some(Trim(initial.description.GetOr("")))
      && p.priority == initial.priority && p.status == initial.status
      && p.deadline == Some(ZeroSeconds(initial.deadline.value))
  {
    ZeroSecondsIdempotent(initial.deadline.value);
  }
}
