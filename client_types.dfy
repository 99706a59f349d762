/**
 * The task record the React frontend receives and the keyword search that
 * several pages share. Timestamps arrive as local date-time strings and are
 * held here as the milliseconds dayjs parses them to; an absent or empty
 * string is None.
 */
module ClientTypes {
  import opened Wrappers
  import opened Text
  import opened Time

  datatype TaskResponse = TaskResponse(
    id: int,
    title: string,
    description: Option<string>,
    priority: Option<string>,
    status: Option<string>,
    deadline: Option<Millis>,
    dateCreated: Option<Millis>,
    boardOrder: Option<int>)

  /** The task form's payload, sent to create and update. */
  datatype TaskRequest = TaskRequest(
    title: string,
    description: Option<string>,
    priority: Option<string>,
    status: Option<string>,
    deadline: Option<Millis>)

  /** The reply to a request: its value, or a rejection with the message of the error if any. */
  datatype Reply<T> = Resolved(value: T) | Rejected(message: Option<string>)

  /** The text the hooks show for a rejected request: the error's message when non-empty, else the fallback. */
  function ReadErrorMessage(message: Option<string>, fallback: string): (r: string)
    ensures message.Some? && message.value != "" ==> r == message.value
    ensures message.None? || message.value == "" ==> r == fallback
  {
    if message.Some? && message.value != "" then message.value else fallback
  }

  /** Number.MAX_SAFE_INTEGER, the sort key the pages give a missing value. */
  const MaxSafeInteger: int := 9007199254740991

  /** What an optional string contributes after .filter(Boolean): itself when present and non-empty. */
  function Truthy(o: Option<string>): (r: seq<string>)
    ensures r == [] <==> o.None? || o.value == ""
    ensures r != [] ==> r == [o.value]
  {
    if o.Some? && o.value != "" then [o.value] else []
  }

  /** The searchable fields of a task that are present. */
  function SearchParts(t: TaskResponse): seq<string> {
    Truthy(Some(t.title)) + Truthy(t.description) + Truthy(t.priority) + Truthy(t.status)
  }

  /** The lower-cased, space-joined title, description, priority and status. */
  function SearchBlob(t: TaskResponse): string {
    ToLower(Join(SearchParts(t), " "))
  }

  /** The search box value as the pages use it: trimmed, then lower-cased. */
  function Keyword(search: string): (r: string)
    ensures |r| <= |search|
    ensures r == [] <==> forall i | 0 <= i < |search| :: IsJsWhitespace(search[i])
  {
    TrimEmptyIff(search);
    ToLower(Trim(search))
  }

  /** An empty keyword matches everything; otherwise it must occur in the blob. */
  predicate MatchesKeyword(t: TaskResponse, keyword: string) {
    keyword == "" || Contains(SearchBlob(t), keyword)
  }

  lemma {:induction false} JoinContainsPart(parts: seq<string>, sep: string, i: int)
    requires 0 <= i < |parts|
    ensures Contains(Join(parts, sep), parts[i])
  {
    if |parts| == 1 {
      assert OccursAt(Join(parts, sep), parts[i], 0);
    } else if i == 0 {
      OccursAtFront(parts[0], sep + Join(parts[1..], sep));
      assert Join(parts, sep) == parts[0] + (sep + Join(parts[1..], sep));
    } else {
      JoinContainsPart(parts[1..], sep, i - 1);
      var rest := Join(parts[1..], sep);
      var k :| 0 <= k <= |rest| && OccursAt(rest, parts[i], k);
      OccursAtShifted(parts[0] + sep, rest, parts[i], k);
      assert Join(parts, sep) == parts[0] + sep + rest;
    }
  }

  lemma OccursAtFront(a: string, b: string)
    ensures OccursAt(a + b, a, 0)
  {
    assert (a + b)[0..|a|] == a;
  }

  lemma OccursAtShifted(pre: string, rest: string, sub: string, k: int)
    requires OccursAt(rest, sub, k)
    ensures OccursAt(pre + rest, sub, |pre| + k)
  {
    assert (pre + rest)[|pre| + k..|pre| + k + |sub|] == rest[k..k + |sub|];
  }

  lemma ContainsLower(s: string, sub: string)
    requires Contains(s, sub)
    ensures Contains(ToLower(s), ToLower(sub))
  {
    var k :| 0 <= k <= |s| && OccursAt(s, sub, k);
    assert ToLower(s)[k..k + |sub|] == ToLower(sub) by {
      forall j | 0 <= j < |sub| ensures ToLower(s)[k..k + |sub|][j] == ToLower(sub)[j] {
        assert s[k..k + |sub|][j] == sub[j];
      }
    }
    assert OccursAt(ToLower(s), ToLower(sub), k);
  }

  /**
   * Every present field can be found: searching for any piece of a field, in
   * any case, keeps the task.
   */
  lemma SearchFindsField(t: TaskResponse, i: int, piece: string)
    requires 0 <= i < |SearchParts(t)|
    requires Contains(SearchParts(t)[i], piece)
    ensures MatchesKeyword(t, ToLower(piece))
  {
    var part := SearchParts(t)[i];
    var k :| 0 <= k <= |part| && OccursAt(part, piece, k);
    JoinContainsPart(SearchParts(t), " ", i);
    var j := Join(SearchParts(t), " ");
    var m :| 0 <= m <= |j| && OccursAt(j, part, m);
    assert j[m + k..m + k + |piece|] == part[k..k + |piece|];
    assert OccursAt(j, piece, m + k);
    ContainsLower(j, piece);
  }
}
