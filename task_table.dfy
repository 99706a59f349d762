/**
 * The task table of the tasks page: the search box over title, description,
 * priority and status, and the column filters and sorters.
 */
module TaskTableView {
  import opened Wrappers
  import opened Text
  import opened JsArray
  import opened ClientTypes

  function HasTerm(term: string): TaskResponse -> bool {
    (t: TaskResponse) => Contains(SearchBlob(t), term)
  }

  /** filteredTasks: the input itself for a blank search, otherwise the tasks whose fields hold the term. */
  function TableSearch(tasks: seq<TaskResponse>, search: string): seq<TaskResponse> {
    var term := Keyword(search);
    if term == "" then tasks else Filter(tasks, HasTerm(term))
  }

  /**
   * A blank search shows the input unchanged; otherwise a task is shown iff
   * the trimmed, lower-cased term occurs in its lower-cased fields, and the
   * shown tasks keep their order.
   */
  lemma TableSearchExact(tasks: seq<TaskResponse>, search: string)
    ensures (forall i | 0 <= i < |search| :: IsJsWhitespace(search[i])) ==> TableSearch(tasks, search) == tasks
    ensures forall t :: t in TableSearch(tasks, search) <==> t in tasks && MatchesKeyword(t, Keyword(search))
    ensures Subsequence(TableSearch(tasks, search), tasks)
  {
    var term := Keyword(search);
    if term == "" {
      SubsequenceRefl(tasks);
    } else {
      forall t ensures t in TableSearch(tasks, search) <==> t in tasks && MatchesKeyword(t, term) {
        FilterMember(tasks, HasTerm(term), t);
      }
      FilterSubsequence(tasks, HasTerm(term));
    }
  }

  lemma {:induction false} SubsequenceRefl<T>(s: seq<T>)
    ensures Subsequence(s, s)
    decreases |s|
  {
    if s != [] {
      SubsequenceRefl(s[1..]);
    }
  }

  /** The priority and status column filters: the field, or '' when missing, equals the chosen value. */
  predicate ColumnFilter(value: string, field: Option<string>) {
    field.GetOr("") == value
  }

  /** A missing field passes only the empty value; a present one only its own value. */
  lemma ColumnFilterIff(value: string, field: Option<string>)
    ensures ColumnFilter(value, field) <==> (field.Some? && field.value == value) || (field.None? && value == "")
  {
  }

  /** The priority and status sorters: the fields compared as text, a missing one as ''. */
  function FieldSorter(a: Option<string>, b: Option<string>): (r: int)
    ensures r == 0 <==> a.GetOr("") == b.GetOr("")
  {
    CompareText(a.GetOr(""), b.GetOr(""))
  }

  /** Swapping the rows flips the sorter's answer, so a missing value and '' always sort together. */
  lemma FieldSorterOpposite(a: Option<string>, b: Option<string>)
    ensures FieldSorter(a, b) == -FieldSorter(b, a)
    ensures a.None? ==> FieldSorter(a, b) == FieldSorter(Some(""), b)
  {
    CompareTextAntisymmetric(a.GetOr(""), b.GetOr(""));
  }

  /** The deadline sorter: the difference of the deadlines, a missing one counted as the epoch. */
  function DeadlineSorter(a: TaskResponse, b: TaskResponse): int {
    a.deadline.GetOr(0) - b.deadline.GetOr(0)
  }

  /** A task without a deadline sorts before every task due after the epoch, and ties with one due at it. */
  lemma MissingDeadlineSortsFirst(a: TaskResponse, b: TaskResponse)
    requires a.deadline.None? && b.deadline.Some?
    ensures DeadlineSorter(a, b) < 0 <==> b.deadline.value > 0
    ensures DeadlineSorter(a, b) == 0 <==> b.deadline.value == 0
  {
  }

  /** The deadline sorter is a consistent comparator, so the table's sort is well defined. */
  lemma DeadlineSorterConsistent()
    ensures Consistent((a: TaskResponse, b: TaskResponse) => DeadlineSorter(a, b))
  {
    var key := (t: TaskResponse) => t.deadline.GetOr(0);
    ByKeyConsistent(key);
    ConsistentPointwise(ByKey(key), (a: TaskResponse, b: TaskResponse) => DeadlineSorter(a, b));
  }
}
