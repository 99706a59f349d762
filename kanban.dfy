/**
 * The Kanban board page: status normalisation for display, the card
 * comparators, the filter on the visible cards, the grouping into three sorted
 * columns and the sequence of backend calls a drop on a column issues.
 */
module KanbanPage {
  import opened Wrappers
  import opened Text
  import opened Time
  import opened JsArray
  import opened ClientTypes

  datatype KanbanStatus = TODO | IN_PROGRESS | DONE

  datatype SortField = BoardOrder | Deadline | Priority | Status | DateCreated | Title

  datatype SortDir = Asc | Desc

  function StatusText(s: KanbanStatus): string {
    match s
    case TODO => "TODO"
    case IN_PROGRESS => "IN_PROGRESS"
    case DONE => "DONE"
  }

  /** The column a raw status is shown in: legacy values are mapped, anything unknown is Todo. */
  function ToKanbanStatus(status: Option<string>): (r: KanbanStatus)
    ensures r == DONE <==> status == Some("COMPLETED") || status == Some("DONE")
    ensures r == IN_PROGRESS <==> status == Some("IN_PROGRESS")
  {
    if status == Some("COMPLETED") then DONE
    else if status == Some("PENDING") then TODO
    else if status == Some("IN_PROGRESS") then IN_PROGRESS
    else if status == Some("DONE") then DONE
    else if status == Some("TODO") then TODO
    else TODO
  }

  /** Showing a card's column name again gives the same column. */
  lemma ToKanbanStatusIdempotent(status: Option<string>)
    ensures ToKanbanStatus(Some(StatusText(ToKanbanStatus(status)))) == ToKanbanStatus(status)
  {
  }

  /** The board order a card sorts by; a missing one counts as Number.MAX_SAFE_INTEGER. */
  function OrderKey(t: TaskResponse): int {
    t.boardOrder.GetOr(MaxSafeInteger)
  }

  function TaskId(t: TaskResponse): int {
    t.id
  }

  /** Board order ascending, then id ascending. */
  function SortByBoardOrder(a: TaskResponse, b: TaskResponse): (r: int)
    ensures r == 0 <==> OrderKey(a) == OrderKey(b) && a.id == b.id
  {
    var aOrder := OrderKey(a);
    var bOrder := OrderKey(b);
    if aOrder != bOrder then aOrder - bOrder else a.id - b.id
  }

  /** A card with a board order below the maximum sorts before a card without one. */
  lemma BoardOrderMissingLast(a: TaskResponse, b: TaskResponse)
    requires a.boardOrder.Some? && a.boardOrder.value < MaxSafeInteger && b.boardOrder.None?
    ensures SortByBoardOrder(a, b) < 0 && SortByBoardOrder(b, a) > 0
  {
  }

  /** Cards with the same board order are ordered by id. */
  lemma BoardOrderTiesById(a: TaskResponse, b: TaskResponse)
    requires a.boardOrder == b.boardOrder && a.id < b.id
    ensures SortByBoardOrder(a, b) < 0 && SortByBoardOrder(b, a) > 0
  {
  }

  const priorityRank: map<string, int> := map["LOW" := 1, "MODERATE" := 2, "HIGH" := 3]

  function PriorityRank(p: Option<string>): int {
    var key := p.GetOr("");
    if key in priorityRank then priorityRank[key] else MaxSafeInteger
  }

  function StatusRank(status: Option<string>): int {
    match ToKanbanStatus(status)
    case TODO => 1
    case IN_PROGRESS => 2
    case DONE => 3
  }

  /** The primary key of every field but the board order and the title. */
  function FieldKey(t: TaskResponse, field: SortField): int {
    match field
    case Deadline => t.deadline.GetOr(MaxSafeInteger)
    case Priority => PriorityRank(t.priority)
    case DateCreated => t.dateCreated.GetOr(MaxSafeInteger)
    case Status => StatusRank(t.status)
    case _ => 0
  }

  function CompareByField(a: TaskResponse, b: TaskResponse, field: SortField): int {
    if field == BoardOrder then SortByBoardOrder(a, b)
    else if field == Deadline then
      var aDeadline := a.deadline.GetOr(MaxSafeInteger);
      var bDeadline := b.deadline.GetOr(MaxSafeInteger);
      if aDeadline != bDeadline then aDeadline - bDeadline else SortByBoardOrder(a, b)
    else if field == Priority then
      var aPriority := PriorityRank(a.priority);
      var bPriority := PriorityRank(b.priority);
      if aPriority != bPriority then aPriority - bPriority else SortByBoardOrder(a, b)
    else if field == DateCreated then
      var aCreated := a.dateCreated.GetOr(MaxSafeInteger);
      var bCreated := b.dateCreated.GetOr(MaxSafeInteger);
      if aCreated != bCreated then aCreated - bCreated else SortByBoardOrder(a, b)
    else if field == Status then
      var byStatus := StatusRank(a.status) - StatusRank(b.status);
      if byStatus != 0 then byStatus else SortByBoardOrder(a, b)
    else
      var byTitle := CompareText(a.title, b.title);
      if byTitle != 0 then byTitle else SortByBoardOrder(a, b)
  }

  function TitleOrder(a: TaskResponse, b: TaskResponse): int {
    CompareText(a.title, b.title)
  }

  function FieldKeyOf(field: SortField): TaskResponse -> int {
    (t: TaskResponse) => FieldKey(t, field)
  }

  /**
   * The order each field describes, written as a lexicographic combination:
   * the field's own order, then board order, then id.
   */
  function ReferenceOrder(field: SortField): (TaskResponse, TaskResponse) -> int {
    var byBoard := ThenBy(ByKey(OrderKey), ByKey(TaskId));
    if field == BoardOrder then byBoard
    else if field == Title then ThenBy(TitleOrder, byBoard)
    else ThenBy(ByKey(FieldKeyOf(field)), byBoard)
  }

  function FieldOrder(field: SortField): (TaskResponse, TaskResponse) -> int {
    (a: TaskResponse, b: TaskResponse) => CompareByField(a, b, field)
  }

  /** The comparator the board sorts each column with. */
  function Directed(field: SortField, dir: SortDir): (TaskResponse, TaskResponse) -> int {
    (a: TaskResponse, b: TaskResponse) =>
      var compared := CompareByField(a, b, field);
      if dir == Asc then compared else -compared
  }

  /** Every field's comparator is the lexicographic reference order. */
  lemma CompareByFieldIsLexicographic(field: SortField, a: TaskResponse, b: TaskResponse)
    ensures CompareByField(a, b, field) == ReferenceOrder(field)(a, b)
  {
    var byOrder, byId := ByKey(OrderKey), ByKey(TaskId);
    var byBoard := ThenBy(byOrder, byId);
    assert byOrder(a, b) == OrderKey(a) - OrderKey(b);
    assert byId(a, b) == TaskId(a) - TaskId(b);
    assert byBoard(a, b) == (if byOrder(a, b) != 0 then byOrder(a, b) else byId(a, b));
    if field == Title {
      assert ReferenceOrder(field)(a, b) == (if TitleOrder(a, b) != 0 then TitleOrder(a, b) else byBoard(a, b));
    } else if field != BoardOrder {
      var k := ByKey(FieldKeyOf(field));
      assert k(a, b) == FieldKey(a, field) - FieldKey(b, field);
      assert ReferenceOrder(field)(a, b) == (if k(a, b) != 0 then k(a, b) else byBoard(a, b));
    }
  }

  lemma TitleOrderConsistent()
    ensures Consistent(TitleOrder)
  {
    forall a: TaskResponse, b: TaskResponse ensures TitleOrder(a, b) < 0 <==> TitleOrder(b, a) > 0 {
      CompareTextAntisymmetric(a.title, b.title);
    }
    forall a: TaskResponse, b: TaskResponse, c: TaskResponse | TitleOrder(a, b) <= 0 && TitleOrder(b, c) <= 0
      ensures TitleOrder(a, c) <= 0
    {
      CompareTextTransitive(a.title, b.title, c.title);
    }
  }

  /** Every sort field, in either direction, gives a comparator Array.prototype.sort can rely on. */
  lemma DirectedConsistent(field: SortField, dir: SortDir)
    ensures Consistent(FieldOrder(field))
    ensures Consistent(Directed(field, dir))
  {
    FieldOrderConsistent(field);
    if dir == Desc {
      ReverseConsistent(FieldOrder(field));
      ConsistentPointwise(Reverse(FieldOrder(field)), Directed(field, dir));
    } else {
      ConsistentPointwise(FieldOrder(field), Directed(field, dir));
    }
  }

  lemma FieldOrderConsistent(field: SortField)
    ensures Consistent(FieldOrder(field))
  {
    ReferenceOrderConsistent(field);
    forall a, b ensures ReferenceOrder(field)(a, b) == FieldOrder(field)(a, b) {
      CompareByFieldIsLexicographic(field, a, b);
    }
    ConsistentPointwise(ReferenceOrder(field), FieldOrder(field));
  }

  lemma ReferenceOrderConsistent(field: SortField)
    ensures Consistent(ReferenceOrder(field))
  {
    var byBoard := ThenBy(ByKey(OrderKey), ByKey(TaskId));
    ByKeyConsistent(OrderKey);
    ByKeyConsistent(TaskId);
    ThenByConsistent(ByKey(OrderKey), ByKey(TaskId));
    if field == Title {
      TitleOrderConsistent();
      ThenByConsistent(TitleOrder, byBoard);
    } else if field != BoardOrder {
      ByKeyConsistent(FieldKeyOf(field));
      ThenByConsistent(ByKey(FieldKeyOf(field)), byBoard);
    }
  }

  /** A missing deadline, priority or creation time sorts after a present one. */
  lemma MissingFieldSortsLast(a: TaskResponse, b: TaskResponse, field: SortField)
    requires field == Deadline ==> a.deadline.Some? && a.deadline.value < MaxSafeInteger && b.deadline.None?
    requires field == DateCreated ==> a.dateCreated.Some? && a.dateCreated.value < MaxSafeInteger && b.dateCreated.None?
    requires field == Priority ==> a.priority.Some? && a.priority.value in priorityRank && b.priority.None?
    requires field == Deadline || field == DateCreated || field == Priority
    ensures CompareByField(a, b, field) < 0 && CompareByField(b, a, field) > 0
  {
  }

  /** Priority sorts LOW before MODERATE before HIGH; status sorts Todo before In Progress before Done. */
  lemma RankOrders(a: TaskResponse, b: TaskResponse)
    ensures a.priority == Some("LOW") && b.priority == Some("MODERATE") ==> CompareByField(a, b, Priority) < 0
    ensures a.priority == Some("MODERATE") && b.priority == Some("HIGH") ==> CompareByField(a, b, Priority) < 0
    ensures ToKanbanStatus(a.status) == TODO && ToKanbanStatus(b.status) == IN_PROGRESS ==> CompareByField(a, b, Status) < 0
    ensures ToKanbanStatus(a.status) == IN_PROGRESS && ToKanbanStatus(b.status) == DONE ==> CompareByField(a, b, Status) < 0
  {
  }

  /** Every field falls back to the board order when its own keys tie. */
  lemma FieldTieFallsBack(a: TaskResponse, b: TaskResponse, field: SortField)
    requires field == Title ==> a.title == b.title
    requires field != Title ==> FieldKey(a, field) == FieldKey(b, field)
    ensures CompareByField(a, b, field) == SortByBoardOrder(a, b)
  {
  }

  /** Descending order reverses the whole comparator, the id tiebreak included. */
  lemma DescendingReversesTiebreak(a: TaskResponse, b: TaskResponse, field: SortField)
    requires FieldKey(a, field) == FieldKey(b, field) && a.title == b.title
    requires a.boardOrder == b.boardOrder && a.id < b.id
    ensures Directed(field, Asc)(a, b) < 0
    ensures Directed(field, Desc)(a, b) > 0
  {
  }

  /** The card filter: keyword, then status, then the quick deadline window of days days. */
  predicate Passes(t: TaskResponse, keyword: string, statusFilter: Option<KanbanStatus>, quickDays: Option<int>, now: Millis) {
    if keyword != "" && !Contains(SearchBlob(t), keyword) then false
    else if statusFilter.Some? && ToKanbanStatus(t.status) != statusFilter.value then false
    else if quickDays.None? then true
    else if t.deadline.None? then false
    else now <= t.deadline.value <= QuickWindowEnd(now, quickDays.value)
  }

  /** A card passes exactly when it meets all three conditions. */
  lemma PassesIff(t: TaskResponse, keyword: string, statusFilter: Option<KanbanStatus>, quickDays: Option<int>, now: Millis)
    ensures Passes(t, keyword, statusFilter, quickDays, now) <==>
      (MatchesKeyword(t, keyword)
      && (statusFilter.None? || ToKanbanStatus(t.status) == statusFilter.value)
      && (quickDays.None? || (t.deadline.Some? && now <= t.deadline.value <= QuickWindowEnd(now, quickDays.value))))
  {
  }

  function FilteredTasks(tasks: seq<TaskResponse>, search: string, statusFilter: Option<KanbanStatus>, quickDays: Option<int>, now: Millis): seq<TaskResponse> {
    Filter(tasks, PassesWith(Keyword(search), statusFilter, quickDays, now))
  }

  function PassesWith(keyword: string, statusFilter: Option<KanbanStatus>, quickDays: Option<int>, now: Millis): TaskResponse -> bool {
    (t: TaskResponse) => Passes(t, keyword, statusFilter, quickDays, now)
  }

  /** The visible cards are exactly the passing cards, in their original order. */
  lemma FilteredTasksExact(tasks: seq<TaskResponse>, search: string, statusFilter: Option<KanbanStatus>, quickDays: Option<int>, now: Millis)
    ensures var r := FilteredTasks(tasks, search, statusFilter, quickDays, now);
      (forall i | 0 <= i < |r| :: Passes(r[i], Keyword(search), statusFilter, quickDays, now))
      && (forall i | 0 <= i < |tasks| :: Passes(tasks[i], Keyword(search), statusFilter, quickDays, now) ==> tasks[i] in r)
      && Subsequence(r, tasks)
  {
    FilterSubsequence(tasks, PassesWith(Keyword(search), statusFilter, quickDays, now));
  }

  /** The cards of one column, in input order. */
  function Column(s: seq<TaskResponse>, st: KanbanStatus): seq<TaskResponse> {
    Filter(s, InColumn(st))
  }

  function InColumn(st: KanbanStatus): TaskResponse -> bool {
    (t: TaskResponse) => ToKanbanStatus(t.status) == st
  }

  datatype Board = Board(todo: seq<TaskResponse>, inProgress: seq<TaskResponse>, done: seq<TaskResponse>)
  {
    function Get(st: KanbanStatus): seq<TaskResponse> {
      match st
      case TODO => todo
      case IN_PROGRESS => inProgress
      case DONE => done
    }
  }

  /** Every card lands in exactly one column, the one of its normalised status. */
  lemma {:induction false} ColumnsPartition(s: seq<TaskResponse>)
    ensures multiset(Column(s, TODO)) + multiset(Column(s, IN_PROGRESS)) + multiset(Column(s, DONE)) == multiset(s)
  {
    if s != [] {
      var front, last := s[..|s| - 1], s[|s| - 1];
      ColumnsPartition(front);
      assert s == front + [last];
      ColumnsStep(front, last);
    }
  }

  /** Appending a card adds it to the multiset union of the columns exactly once. */
  lemma ColumnsStep(s: seq<TaskResponse>, task: TaskResponse)
    ensures multiset(Column(s + [task], TODO)) + multiset(Column(s + [task], IN_PROGRESS)) + multiset(Column(s + [task], DONE))
      == multiset(Column(s, TODO)) + multiset(Column(s, IN_PROGRESS)) + multiset(Column(s, DONE)) + multiset{task}
  {
    ColumnStep(s, task, TODO);
    ColumnStep(s, task, IN_PROGRESS);
    ColumnStep(s, task, DONE);
  }

  /** Appending a card extends its own column and no other. */
  lemma ColumnStep(s: seq<TaskResponse>, task: TaskResponse, st: KanbanStatus)
    ensures Column(s + [task], st) == Column(s, st) + (if ToKanbanStatus(task.status) == st then [task] else [])
  {
    FilterAppend(s, [task], InColumn(st));
  }

  /** Groups the visible cards by column and sorts each column with the chosen comparator. */
  method BoardColumns(filtered: seq<TaskResponse>, field: SortField, dir: SortDir) returns (board: Board)
    ensures board.todo == Sort(Column(filtered, TODO), Directed(field, dir))
    ensures board.inProgress == Sort(Column(filtered, IN_PROGRESS), Directed(field, dir))
    ensures board.done == Sort(Column(filtered, DONE), Directed(field, dir))
    ensures forall st :: ColumnSorted(board, st, field, dir)
    ensures multiset(board.todo) + multiset(board.inProgress) + multiset(board.done) == multiset(filtered)
  {
    var todo, inProgress, done := [], [], [];
    for i := 0 to |filtered|
      invariant todo == Column(filtered[..i], TODO)
      invariant inProgress == Column(filtered[..i], IN_PROGRESS)
      invariant done == Column(filtered[..i], DONE)
    {
      var task := filtered[i];
      assert filtered[..i + 1] == filtered[..i] + [task];
      ColumnStep(filtered[..i], task, TODO);
      ColumnStep(filtered[..i], task, IN_PROGRESS);
      ColumnStep(filtered[..i], task, DONE);
      match ToKanbanStatus(task.status)
      case TODO => todo := todo + [task];
      case IN_PROGRESS => inProgress := inProgress + [task];
      case DONE => done := done + [task];
    }
    assert filtered[..|filtered|] == filtered;
    var cmp := Directed(field, dir);
    board := Board(Sort(todo, cmp), Sort(inProgress, cmp), Sort(done, cmp));
    SortedColumns(filtered, field, dir, board);
  }

  /** A column holds only cards of its status, sorted by the board comparator. */
  predicate ColumnSorted(board: Board, st: KanbanStatus, field: SortField, dir: SortDir) {
    (forall i | 0 <= i < |board.Get(st)| :: ToKanbanStatus(board.Get(st)[i].status) == st)
    && Sorted(board.Get(st), Directed(field, dir))
  }

  lemma SortedColumns(filtered: seq<TaskResponse>, field: SortField, dir: SortDir, board: Board)
    requires board == Board(Sort(Column(filtered, TODO), Directed(field, dir)),
      Sort(Column(filtered, IN_PROGRESS), Directed(field, dir)), Sort(Column(filtered, DONE), Directed(field, dir)))
    ensures forall st :: ColumnSorted(board, st, field, dir)
    ensures multiset(board.todo) + multiset(board.inProgress) + multiset(board.done) == multiset(filtered)
  {
    ColumnsPartition(filtered);
    forall st ensures ColumnSorted(board, st, field, dir) {
      SortedColumn(filtered, st, field, dir);
      assert board.Get(st) == Sort(Column(filtered, st), Directed(field, dir));
    }
  }

  lemma SortedColumn(filtered: seq<TaskResponse>, st: KanbanStatus, field: SortField, dir: SortDir)
    ensures var col := Sort(Column(filtered, st), Directed(field, dir));
      (forall i | 0 <= i < |col| :: ToKanbanStatus(col[i].status) == st) && Sorted(col, Directed(field, dir))
  {
    var cmp := Directed(field, dir);
    var col := Column(filtered, st);
    DirectedConsistent(field, dir);
    SortSorted(col, cmp);
    forall i | 0 <= i < |Sort(col, cmp)| ensures ToKanbanStatus(Sort(col, cmp)[i].status) == st {
      var x := Sort(col, cmp)[i];
      assert x in multiset(Sort(col, cmp));
      assert x in multiset(col);
      var j :| 0 <= j < |col| && col[j] == x;
      assert InColumn(st)(col[j]);
    }
  }

  /** A backend call issued by a drop. */
  datatype Call = PatchStatus(id: int, status: KanbanStatus) | ReorderColumn(status: KanbanStatus, orderedTaskIds: seq<int>) | RefreshTasks

  datatype Toast = Success(text: string) | Failure(text: string)

  /** The drag-and-drop state of the page, with the calls it issued and the toasts it showed. */
  datatype BoardState = BoardState(
    draggedTaskId: Option<int>,
    dragSourceStatus: Option<KanbanStatus>,
    moving: bool,
    calls: seq<Call>,
    toasts: seq<Toast>)

  function Ids(s: seq<TaskResponse>): (r: seq<int>)
    ensures |r| == |s| && forall i | 0 <= i < |s| :: r[i] == s[i].id
  {
    seq(|s|, i requires 0 <= i < |s| => s[i].id)
  }

  function Without(s: seq<TaskResponse>, id: int): seq<TaskResponse> {
    Filter(s, (t: TaskResponse) => t.id != id)
  }

  function FindTask(tasks: seq<TaskResponse>, id: int): Option<TaskResponse> {
    Find(tasks, (t: TaskResponse) => t.id == id)
  }

  /** JavaScript truthiness of the dragged id: null and 0 are both falsy. */
  predicate HasDragged(st: BoardState) {
    st.draggedTaskId.Some? && st.draggedTaskId.value != 0
  }

  /** The ids the target column is reordered to: its cards, then the moved card last. */
  function TargetOrder(dragged: int, source: KanbanStatus, target: KanbanStatus, board: Board): seq<int> {
    if source == target then Ids(Without(board.Get(source), dragged)) + [dragged]
    else Ids(board.Get(target)) + [dragged]
  }

  /** Every call a completed move issues, in order. */
  function MovePlan(dragged: int, source: KanbanStatus, target: KanbanStatus, board: Board): seq<Call> {
    var sourceFiltered := Without(board.Get(source), dragged);
    [PatchStatus(dragged, target), ReorderColumn(target, TargetOrder(dragged, source, target, board))]
    + (if source != target && |sourceFiltered| > 0 then [ReorderColumn(source, Ids(sourceFiltered))] else [])
    + [RefreshTasks]
  }

  /**
   * The whole effect of a drop on column target. failAt is the index in the
   * plan of the first backend call that rejects (the refresh never rejects)
   * and error the message of its error when that is a string.
   */
  function MoveStep(st: BoardState, target: KanbanStatus, board: Board, tasks: seq<TaskResponse>,
                    failAt: Option<nat>, error: Option<string>): BoardState
  {
    if !HasDragged(st) || st.moving then st
    else
      var dragged := st.draggedTaskId.value;
      var source := st.dragSourceStatus.GetOr(target);
      var found := FindTask(tasks, dragged);
      if found.None? then st
      else if ToKanbanStatus(found.value.status) == DONE then st.(draggedTaskId := None, dragSourceStatus := None)
      else MoveCommitted(st, dragged, source, target, board, failAt, error)
  }

  /** The effect of a move that reached the backend calls. */
  function MoveCommitted(st: BoardState, dragged: int, source: KanbanStatus, target: KanbanStatus, board: Board,
                         failAt: Option<nat>, error: Option<string>): BoardState
  {
    var plan := MovePlan(dragged, source, target, board);
    var fails := failAt.Some? && failAt.value < |plan| - 1;
    var issued := if fails then plan[..failAt.value + 1] else plan;
    var toast := if fails then Failure(error.GetOr("Failed to move task")) else Success("Task moved");
    BoardState(None, None, false, st.calls + issued, st.toasts + [toast])
  }

  lemma MovePlanShape(dragged: int, source: KanbanStatus, target: KanbanStatus, board: Board)
    ensures var plan := MovePlan(dragged, source, target, board);
      var rest := Without(board.Get(source), dragged);
      && plan[..1] == [PatchStatus(dragged, target)]
      && plan[..2] == [PatchStatus(dragged, target), ReorderColumn(target, TargetOrder(dragged, source, target, board))]
      && (source != target && |rest| > 0 ==> |plan| == 4 && plan[..3] == plan[..2] + [ReorderColumn(source, Ids(rest))])
      && (!(source != target && |rest| > 0) ==> |plan| == 3)
      && plan == plan[..|plan| - 1] + [RefreshTasks]
  {
  }

  /** With no dragged card, or a move in flight, a drop does nothing. */
  lemma MoveIgnored(st: BoardState, target: KanbanStatus, board: Board, tasks: seq<TaskResponse>, failAt: Option<nat>, error: Option<string>)
    requires st.draggedTaskId.None? || st.draggedTaskId == Some(0) || st.moving
    ensures MoveStep(st, target, board, tasks, failAt, error) == st
  {
  }

  /** A dragged id missing from the task list leaves everything, the drag state included, as it was. */
  lemma MoveOfMissingTask(st: BoardState, target: KanbanStatus, board: Board, tasks: seq<TaskResponse>, failAt: Option<nat>, error: Option<string>)
    requires HasDragged(st) && !st.moving
    requires forall i | 0 <= i < |tasks| :: tasks[i].id != st.draggedTaskId.value
    ensures MoveStep(st, target, board, tasks, failAt, error) == st
  {
  }

  /** A Done card issues no call; only its drag state is cleared. */
  lemma MoveOfDoneTask(st: BoardState, target: KanbanStatus, board: Board, tasks: seq<TaskResponse>, failAt: Option<nat>, error: Option<string>, k: int)
    requires HasDragged(st) && !st.moving
    requires 0 <= k < |tasks| && tasks[k].id == st.draggedTaskId.value && ToKanbanStatus(tasks[k].status) == DONE
    requires forall i | 0 <= i < k :: tasks[i].id != st.draggedTaskId.value
    ensures MoveStep(st, target, board, tasks, failAt, error)
      == st.(draggedTaskId := None, dragSourceStatus := None)
  {
    var found := FindTask(tasks, st.draggedTaskId.value);
    var i :| 0 <= i < |tasks| && tasks[i] == found.value && tasks[i].id == st.draggedTaskId.value
      && forall j | 0 <= j < i :: tasks[j].id != st.draggedTaskId.value;
    assert i == k;
  }

  /**
   * A move of a card that is not Done issues the status patch, then the target
   * reorder ending with the moved id, then the source reorder only when the
   * columns differ and the source keeps cards, then the refresh; a rejection
   * stops the sequence at the rejected call. Either way the drag and moving
   * state end cleared and exactly one toast is shown.
   */
  lemma MoveIssuesPlan(st: BoardState, target: KanbanStatus, board: Board, tasks: seq<TaskResponse>, failAt: Option<nat>, error: Option<string>)
    requires HasDragged(st) && !st.moving
    requires FindTask(tasks, st.draggedTaskId.value).Some?
    requires ToKanbanStatus(FindTask(tasks, st.draggedTaskId.value).value.status) != DONE
    ensures var r := MoveStep(st, target, board, tasks, failAt, error);
      var dragged := st.draggedTaskId.value;
      var source := st.dragSourceStatus.GetOr(target);
      var plan := MovePlan(dragged, source, target, board);
      && r.draggedTaskId.None? && r.dragSourceStatus.None? && !r.moving
      && |r.toasts| == |st.toasts| + 1
      && plan[0] == PatchStatus(dragged, target)
      && plan[1].ReorderColumn? && plan[1].status == target
      && plan[1].orderedTaskIds[|plan[1].orderedTaskIds| - 1] == dragged
      && plan[|plan| - 1] == RefreshTasks
      && (|plan| == 4 <==> source != target && |Without(board.Get(source), dragged)| > 0)
      && (|plan| == 4 ==> plan[2] == ReorderColumn(source, Ids(Without(board.Get(source), dragged))))
      && (failAt.None? ==> r.calls == st.calls + plan && r.toasts[|st.toasts|] == Success("Task moved"))
      && (forall k: nat | failAt == Some(k) && k < |plan| - 1 ::
            r.calls == st.calls + plan[..k + 1] && r.toasts[|st.toasts|].Failure?)
  {
  }

  /** In a same-column move the moved card goes to the end and appears once. */
  lemma SameColumnMoveAppends(dragged: int, st: KanbanStatus, board: Board)
    ensures var ids := TargetOrder(dragged, st, st, board);
      ids[|ids| - 1] == dragged && forall i | 0 <= i < |ids| - 1 :: ids[i] != dragged
  {
  }

  /** What starting a drag records: nothing for a Done card. */
  function DragStarted(st: BoardState, task: TaskResponse): BoardState {
    if ToKanbanStatus(task.status) == DONE then st
    else st.(draggedTaskId := Some(task.id), dragSourceStatus := Some(ToKanbanStatus(task.status)))
  }

  class KanbanBoard {
    var draggedTaskId: Option<int>
    var dragSourceStatus: Option<KanbanStatus>
    var moving: bool
    var calls: seq<Call>
    var toasts: seq<Toast>

    function State(): BoardState
      reads this
    {
      BoardState(draggedTaskId, dragSourceStatus, moving, calls, toasts)
    }

    constructor()
      ensures State() == BoardState(None, None, false, [], [])
    {
      draggedTaskId, dragSourceStatus, moving := None, None, false;
      calls, toasts := [], [];
    }

    method StartDrag(task: TaskResponse)
      modifies this
      ensures State() == DragStarted(old(State()), task)
    {
      if ToKanbanStatus(task.status) == DONE {
        return;
      }
      draggedTaskId := Some(task.id);
      dragSourceStatus := Some(ToKanbanStatus(task.status));
    }

    /** Each awaited call is a step; failAt and error say which call rejects and with what. */
    method MoveTaskToColumn(target: KanbanStatus, board: Board, tasks: seq<TaskResponse>, failAt: Option<nat>, error: Option<string>)
      modifies this
      ensures State() == MoveStep(old(State()), target, board, tasks, failAt, error)
    {
      if draggedTaskId.None? || draggedTaskId.value == 0 || moving {
        return;
      }
      var dragged := draggedTaskId.value;
      var source := dragSourceStatus.GetOr(target);
      var sourceList := board.Get(source);
      var targetList := if source == target then sourceList else board.Get(target);
      var sourceFiltered := Without(sourceList, dragged);
      var draggedTask := FindTask(tasks, dragged);
      if draggedTask.None? {
        return;
      }
      if ToKanbanStatus(draggedTask.value.status) == DONE {
        draggedTaskId := None;
        dragSourceStatus := None;
        return;
      }
      var nextTarget := if source == target then Ids(sourceFiltered) + [dragged] else Ids(targetList) + [dragged];
      assert MoveStep(old(State()), target, board, tasks, failAt, error)
        == MoveCommitted(old(State()), dragged, source, target, board, failAt, error);
      PersistMove(dragged, source, target, nextTarget, sourceFiltered, board, failAt, error);
    }

    /** The try / catch / finally of a move: the awaited calls in order, the toast, then the cleared state. */
    method PersistMove(dragged: int, source: KanbanStatus, target: KanbanStatus, nextTarget: seq<int>,
                       sourceFiltered: seq<TaskResponse>, ghost board: Board, failAt: Option<nat>, error: Option<string>)
      requires sourceFiltered == Without(board.Get(source), dragged)
      requires nextTarget == TargetOrder(dragged, source, target, board)
      modifies this
      ensures State() == MoveCommitted(old(State()), dragged, source, target, board, failAt, error)
    {
      ghost var plan := MovePlan(dragged, source, target, board);
      MovePlanShape(dragged, source, target, board);
      ghost var calls0 := calls;
      moving := true;
      var failed := false;
      calls := calls + [PatchStatus(dragged, target)];
      failed := failAt == Some(0);
      assert calls == calls0 + plan[..1];
      if !failed {
        calls := calls + [ReorderColumn(target, nextTarget)];
        failed := failAt == Some(1);
        assert calls == calls0 + plan[..2];
      }
      if !failed && source != target && |sourceFiltered| > 0 {
        calls := calls + [ReorderColumn(source, Ids(sourceFiltered))];
        failed := failAt == Some(2);
        assert calls == calls0 + plan[..3];
      }
      if !failed {
        calls := calls + [RefreshTasks];
        toasts := toasts + [Success("Task moved")];
        assert calls == calls0 + plan;
      } else {
        toasts := toasts + [Failure(error.GetOr("Failed to move task"))];
      }
      assert failed == (failAt.Some? && failAt.value < |plan| - 1);
      moving := false;
      draggedTaskId := None;
      dragSourceStatus := None;
    }
  }
}
