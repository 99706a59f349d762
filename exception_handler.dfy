/**
 * GlobalExceptionHandler: each exception becomes an HTTP status and a JSON body
 * holding the status code, an error label and a message (or, for validation
 * errors, a field-to-message map). The body's timestamp is not modelled.
 */
module ExceptionHandler {
  import opened Wrappers
  import opened Text
  import opened TaskExceptions
  import opened TaskEntity

  datatype HttpStatus = OK | BAD_REQUEST | NOT_FOUND | METHOD_NOT_ALLOWED

  function Code(s: HttpStatus): int {
    match s
    case OK => 200
    case BAD_REQUEST => 400
    case NOT_FOUND => 404
    case METHOD_NOT_ALLOWED => 405
  }

  /** The body map: "status", "error", and either "message" or "errors". */
  datatype Body =
    | MessageBody(status: int, error: string, message: Option<string>)
    | ErrorsBody(status: int, error: string, errors: map<string, string>)

  datatype Response = Response(httpStatus: int, body: Body)

  /** buildResponse over baseBody. */
  function BuildResponse(status: HttpStatus, error: string, message: Option<string>): (r: Response)
    ensures r.httpStatus == Code(status) && r.body.status == r.httpStatus
    ensures r.body.MessageBody? && r.body.error == error && r.body.message == message
  {
    Response(Code(status), MessageBody(Code(status), error, message))
  }

  const PriorityText := "Invalid priority value. " + "Allowed values: HIGH, MODERATE, LOW"
  const StatusText := "Invalid status value. " + "Allowed values: TODO, IN_PROGRESS, DONE"
  const RecurrenceText := "Invalid recurrence type. " + "Allowed values: " + "NONE, DAILY, WEEKLY, MONTHLY"

  /** The message handleIllegalArgument reports: case-sensitive keyword tests, first match wins. */
  function RewriteMessage(message: Option<string>): (r: Option<string>)
    ensures message.None? ==> r.None?
    ensures message.Some? && Contains(message.value, "priority") ==> r == Some(PriorityText)
    ensures message.Some? && !Contains(message.value, "priority") && Contains(message.value, "status") ==> r == Some(StatusText)
    ensures (message.Some? && !Contains(message.value, "priority") && !Contains(message.value, "status")
             && Contains(message.value, "RecurrenceType")) ==> r == Some(RecurrenceText)
    ensures (message.Some? && !Contains(message.value, "priority") && !Contains(message.value, "status")
             && !Contains(message.value, "RecurrenceType")) ==> r == message
  {
    match message
    case None => None
    case Some(m) =>
      if Contains(m, "priority") then Some(PriorityText)
      else if Contains(m, "status") then Some(StatusText)
      else if Contains(m, "RecurrenceType") then Some(RecurrenceText)
      else message
  }

  /** Which keywords the three fixed texts contain. */
  lemma FixedTextKeywords()
    ensures Contains(PriorityText, "priority")
    ensures !Contains(StatusText, "priority") && Contains(StatusText, "status")
    ensures !Contains(RecurrenceText, "priority") && !Contains(RecurrenceText, "status")
    ensures !Contains(RecurrenceText, "RecurrenceType")
  {
    PriorityTextKeyword();
    StatusTextHasStatus();
    StatusTextNoPriority();
    RecurrenceTextKeywords();
  }

  lemma PriorityTextKeyword()
    ensures Contains(PriorityText, "priority")
  {
    assert PriorityText[8..16] == "priority";
    assert OccursAt(PriorityText, "priority", 8);
  }

  lemma StatusTextHasStatus()
    ensures Contains(StatusText, "status")
  {
    assert StatusText[8..14] == "status";
    assert OccursAt(StatusText, "status", 8);
  }

  lemma StatusTextNoPriority()
    ensures !Contains(StatusText, "priority")
  {
    NotContainsByPair(StatusText, "priority");
  }

  lemma RecurrenceTextKeywords()
    ensures !Contains(RecurrenceText, "priority") && !Contains(RecurrenceText, "status")
    ensures !Contains(RecurrenceText, "RecurrenceType")
  {
    RecurrenceTextNoPriority();
    RecurrenceTextNoStatus();
    RecurrenceTextNoTypeName();
  }

  lemma RecurrenceTextNoTypeName()
    ensures !Contains(RecurrenceText, "RecurrenceType")
  {
    NotContainsByPair(RecurrenceText, "RecurrenceType");
  }

  lemma RecurrenceTextNoPriority()
    ensures !Contains(RecurrenceText, "priority")
  {
    NotContainsByPair(RecurrenceText, "priority");
  }

  lemma RecurrenceTextNoStatus()
    ensures !Contains(RecurrenceText, "status")
  {
    NotContainsByPair(RecurrenceText, "status");
  }

  /** The three fixed texts are left as they are, so rewriting twice is rewriting once. */
  lemma RewriteIdempotent(message: Option<string>)
    ensures RewriteMessage(RewriteMessage(message)) == RewriteMessage(message)
  {
    FixedTextKeywords();
  }

  /** The error map of handleValidationErrors: put in order, so a later error on a field replaces an earlier one. */
  function ErrorsMap(errors: seq<FieldError>): map<string, string>
    decreases |errors|
  {
    if |errors| == 0 then map[]
    else ErrorsMap(errors[..|errors| - 1])[errors[|errors| - 1].field := errors[|errors| - 1].defaultMessage]
  }

  /** The map holds a key for every rejected field, with the message of the last error on that field. */
  lemma {:induction false} ErrorsMapLastWins(errors: seq<FieldError>)
    ensures forall i | 0 <= i < |errors| :: errors[i].field in ErrorsMap(errors)
    ensures forall f | f in ErrorsMap(errors) :: exists i | 0 <= i < |errors| ::
      errors[i].field == f && ErrorsMap(errors)[f] == errors[i].defaultMessage
      && forall j | i < j < |errors| :: errors[j].field != f
    decreases |errors|
  {
    if |errors| > 0 {
      var n := |errors| - 1;
      var front := errors[..n];
      ErrorsMapLastWins(front);
      var m := ErrorsMap(errors);
      forall i | 0 <= i < |errors| ensures errors[i].field in m {
        if i < n {
          assert front[i] == errors[i];
        }
      }
      forall f | f in m ensures exists i | 0 <= i < |errors| ::
        errors[i].field == f && m[f] == errors[i].defaultMessage && forall j | i < j < |errors| :: errors[j].field != f
      {
        if f == errors[n].field {
          assert errors[n].field == f && m[f] == errors[n].defaultMessage;
        } else {
          var i :| 0 <= i < |front| && front[i].field == f && ErrorsMap(front)[f] == front[i].defaultMessage
            && forall j | i < j < |front| :: front[j].field != f;
          assert errors[i] == front[i];
          forall j | i < j < |errors| ensures errors[j].field != f {
            if j < n {
              assert errors[j] == front[j];
            }
          }
        }
      }
    }
  }

  /** The errors.forEach(put) loop of handleValidationErrors. */
  method CollectFieldErrors(errors: seq<FieldError>) returns (m: map<string, string>)
    ensures m == ErrorsMap(errors)
  {
    m := map[];
    var k := 0;
    while k < |errors|
      invariant 0 <= k <= |errors|
      invariant m == ErrorsMap(errors[..k])
    {
      assert errors[..k + 1][..k] == errors[..k];
      m := m[errors[k].field := errors[k].defaultMessage];
      k := k + 1;
    }
    assert errors[..k] == errors;
  }

  /** The handler Spring selects for each exception, and the response it builds. */
  function Handle(ex: Exception): (r: Response)
    ensures r.httpStatus == r.body.status
    ensures ex.MethodArgumentNotValid? <==> r.body.ErrorsBody?
  {
    match ex
    case NoHandlerFound(httpMethod, url) =>
      BuildResponse(NOT_FOUND, "Not Found", Some("No endpoint found for " + httpMethod + " " + url))
    case TaskAlreadyDeleted(message) =>
      BuildResponse(OK, "Success", Some(message))
    case MessageNotReadable(_) =>
      BuildResponse(BAD_REQUEST, "Malformed JSON", Some("Request body is invalid or unreadable"))
    case MethodArgumentNotValid(fieldErrors) =>
      Response(Code(BAD_REQUEST), ErrorsBody(Code(BAD_REQUEST), "Validation Failed", ErrorsMap(fieldErrors)))
    case IllegalArgument(message) =>
      BuildResponse(BAD_REQUEST, "Invalid Request", RewriteMessage(message))
    case TypeMismatch(name, requiredType) =>
      BuildResponse(BAD_REQUEST, "Invalid Parameter",
        Some("Invalid value for parameter '" + name + "'. Expected type: " + requiredType.GetOr("unknown")))
    case MethodNotSupported(requestMethod, supported) =>
      var names := if supported.Some? then Join(supported.value, ", ") else "";
      BuildResponse(METHOD_NOT_ALLOWED, "Method Not Allowed",
        Some("Method '" + requestMethod + "' is not supported. Supported methods: " + names))
    case TaskAlreadyCompleted(message) =>
      BuildResponse(BAD_REQUEST, "Business Rule Violation", Some(message))
    case ResourceNotFound(message) =>
      BuildResponse(NOT_FOUND, "Not Found", Some(message))
  }

  /** The status codes and labels of the exceptions the task service throws. */
  lemma ServiceExceptionResponses(message: string)
    ensures Handle(TaskAlreadyDeleted(message)) == Response(200, MessageBody(200, "Success", Some(message)))
    ensures Handle(ResourceNotFound(message)) == Response(404, MessageBody(404, "Not Found", Some(message)))
    ensures Handle(TaskAlreadyCompleted(message)) == Response(400, MessageBody(400, "Business Rule Violation", Some(message)))
    ensures Handle(IllegalArgument(Some(message))).httpStatus == 400
    ensures Handle(IllegalArgument(Some(message))).body.error == "Invalid Request"
  {
  }

  /** Malformed JSON always gets the same message, whatever the parser reported. */
  lemma MalformedJsonIgnoresDetail(a: string, b: string)
    ensures Handle(MessageNotReadable(a)) == Handle(MessageNotReadable(b))
    ensures Handle(MessageNotReadable(a)).httpStatus == 400
  {
  }

  /** Validation failures carry the field-to-message map and no message. */
  lemma ValidationResponse(errors: seq<FieldError>)
    ensures Handle(MethodArgumentNotValid(errors)) == Response(400, ErrorsBody(400, "Validation Failed", ErrorsMap(errors)))
  {
  }

  /** "Status is required" contains none of the keywords (the test is case-sensitive), so it is reported as is. */
  lemma StatusRequiredKept()
    ensures Handle(IllegalArgument(Some("Status is required"))).body.message == Some("Status is required")
  {
    NotContainsByPair("Status is required", "priority");
    NotContainsByPair("Status is required", "status");
    NotContainsByPair("Status is required", "RecurrenceType");
  }

  /** The column-mismatch message of reorderBoard contains "status" and is replaced by the status text. */
  lemma ColumnMismatchReplaced(st: Status)
    ensures Handle(IllegalArgument(Some("All tasks must belong to status " + StatusName(st)))).body.message == Some(StatusText)
  {
    MismatchKeywords(st);
    assert RewriteMessage(Some("All tasks must belong to status " + StatusName(st))) == Some(StatusText);
  }

  lemma MismatchKeywords(st: Status)
    ensures Contains("All tasks must belong to status " + StatusName(st), "status")
    ensures !Contains("All tasks must belong to status " + StatusName(st), "priority")
  {
    var m := "All tasks must belong to status " + StatusName(st);
    MismatchHasStatus(StatusName(st));
    MismatchNoPriority(StatusName(st));
  }

  lemma MismatchHasStatus(name: string)
    ensures Contains("All tasks must belong to status " + name, "status")
  {
    var m := "All tasks must belong to status " + name;
    assert m[25..31] == "status";
    assert OccursAt(m, "status", 25);
  }

  lemma MismatchNoPriority(name: string)
    requires name in {"TODO", "IN_PROGRESS", "DONE", "PENDING", "COMPLETED"}
    ensures !Contains("All tasks must belong to status " + name, "priority")
  {
    NotContainsByPair("All tasks must belong to status " + name, "priority");
  }

  /**
   * Enum.valueOf names the enum class with a capital letter, and the rejected name
   * is upper-cased first: an unknown recurrence type gets the fixed recurrence
   * text, while an unknown priority or status name is reported verbatim.
   */
  lemma UnknownEnumMessages(name: string)
    requires forall i | 0 <= i < |name| :: !IsLowerAscii(name[i])
    ensures RewriteMessage(Some(NoEnumConstant("Priority", name))) == Some(NoEnumConstant("Priority", name))
    ensures RewriteMessage(Some(NoEnumConstant("Status", name))) == Some(NoEnumConstant("Status", name))
    ensures RewriteMessage(Some(NoEnumConstant("RecurrenceType", name))) == Some(RecurrenceText)
  {
    NoKeywordsAfter("Priority", name);
    NoKeywordsAfter("Status", name);
    NoKeywordsAfter("RecurrenceType", name);
    var pr := "No enum constant " + "com.decena.task." + "Entity.Task." + "RecurrenceType" + ".";
    assert NoEnumConstant("RecurrenceType", name) == pr + name;
    assert pr[45..59] == "RecurrenceType";
    assert OccursAt(pr, "RecurrenceType", 45);
    ContainsPrefix(pr, name, "RecurrenceType");
  }

  lemma NoKeywordsAfter(enumName: string, name: string)
    requires enumName in {"Priority", "Status", "RecurrenceType"}
    requires forall i | 0 <= i < |name| :: !IsLowerAscii(name[i])
    ensures !Contains(NoEnumConstant(enumName, name), "priority")
    ensures !Contains(NoEnumConstant(enumName, name), "status")
    ensures enumName != "RecurrenceType" ==> !Contains(NoEnumConstant(enumName, name), "RecurrenceType")
  {
    var p := EnumPrefix(enumName);
    assert NoEnumConstant(enumName, name) == p + name;
    if enumName == "Priority" {
      PrefixClean("Priority");
    } else if enumName == "Status" {
      PrefixClean("Status");
    } else {
      PrefixClean("RecurrenceType");
    }
    NotContainsUpperTail(p, name, "priority");
    NotContainsUpperTail(p, name, "status");
    if enumName != "RecurrenceType" {
      NotContainsUpperTail(p, name, "RecurrenceType");
    }
  }

  /** The fixed part of an Enum.valueOf message, before the rejected name. */
  function EnumPrefix(enumName: string): string {
    "No enum constant " + "com.decena.task." + "Entity.Task." + enumName + "."
  }

  lemma PrefixClean(enumName: string)
    requires enumName in {"Priority", "Status", "RecurrenceType"}
    ensures !Contains(EnumPrefix(enumName), "priority")
    ensures !Contains(EnumPrefix(enumName), "status")
    ensures enumName != "RecurrenceType" ==> !Contains(EnumPrefix(enumName), "RecurrenceType")
  {
    PrefixNoPriority(enumName);
    PrefixNoStatus(enumName);
    if enumName == "Priority" {
      PriorityPrefixNoRecurrence();
    } else if enumName == "Status" {
      StatusPrefixNoRecurrence();
    }
  }

  lemma PriorityPrefixNoRecurrence()
    ensures !Contains(EnumPrefix("Priority"), "RecurrenceType")
  {
    NotContainsByPair(EnumPrefix("Priority"), "RecurrenceType");
  }

  lemma StatusPrefixNoRecurrence()
    ensures !Contains(EnumPrefix("Status"), "RecurrenceType")
  {
    NotContainsByPair(EnumPrefix("Status"), "RecurrenceType");
  }

  lemma PrefixNoPriority(enumName: string)
    requires enumName in {"Priority", "Status", "RecurrenceType"}
    ensures !Contains(EnumPrefix(enumName), "priority")
  {
    if enumName == "Priority" {
      PriorityPrefixNoPriority();
    } else if enumName == "Status" {
      StatusPrefixNoPriority();
    } else {
      RecurrencePrefixNoPriority();
    }
  }

  lemma PriorityPrefixNoPriority()
    ensures !Contains(EnumPrefix("Priority"), "priority")
  {
    NotContainsByPair(EnumPrefix("Priority"), "priority");
  }

  lemma StatusPrefixNoPriority()
    ensures !Contains(EnumPrefix("Status"), "priority")
  {
    NotContainsByPair(EnumPrefix("Status"), "priority");
  }

  lemma RecurrencePrefixNoPriority()
    ensures !Contains(EnumPrefix("RecurrenceType"), "priority")
  {
    NotContainsByPair(EnumPrefix("RecurrenceType"), "priority");
  }

  lemma PrefixNoStatus(enumName: string)
    requires enumName in {"Priority", "Status", "RecurrenceType"}
    ensures !Contains(EnumPrefix(enumName), "status")
  {
    if enumName == "Priority" {
      PriorityPrefixNoStatus();
    } else if enumName == "Status" {
      StatusPrefixNoStatus();
    } else {
      RecurrencePrefixNoStatus();
    }
  }

  lemma PriorityPrefixNoStatus()
    ensures !Contains(EnumPrefix("Priority"), "status")
  {
    NotContainsByQuad(EnumPrefix("Priority"), "status");
  }

  lemma StatusPrefixNoStatus()
    ensures !Contains(EnumPrefix("Status"), "status")
  {
    NotContainsByQuad(EnumPrefix("Status"), "status");
  }

  lemma RecurrencePrefixNoStatus()
    ensures !Contains(EnumPrefix("RecurrenceType"), "status")
  {
    var a := "No enum constant " + "com.decena.task.";
    var b := "Entity.Task." + "RecurrenceType" + ".";
    assert EnumPrefix("RecurrenceType") == a + b;
    NotContainsByQuad(a, "status");
    NotContainsByQuad(b, "status");
    forall i | 0 <= i < |a| < i + 6 <= |a| + |b| ensures !OccursAt(a + b, "status", i) {
      var w := (a + b)[i..i + 6];
      if i == 30 {
        assert w[1] == 'k';
      } else {
        assert w[0] != 's';
      }
    }
    NotContainsJoin(a, b, "status");
  }
}
