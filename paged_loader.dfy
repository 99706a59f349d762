/**
 * The page loop shared by the active-task and deleted-task hooks: each call
 * takes a new fetch version, requests pages 0, 1, 2, ... of 100 rows, shows
 * the rows it has accumulated after page 0, after every even page and after a
 * short page, and stops at a short or empty page or after page 1000. A newer
 * call moves the version on; after each await a superseded call stops.
 *
 * The replies of the awaited requests are an input, reply(k) for page k, and
 * newerAt names the await during which a newer call starts, if any.
 */
module PagedLoader {
  import opened Wrappers
  import opened ClientTypes

  const PageSize: nat := 100
  const MaxPages: nat := 1000

  /** useTasks loads active tasks newest first; useDeletedTasks loads deleted ones unsorted. */
  datatype Source = ActiveTasks | DeletedTasks

  datatype PageRequest = PageRequest(page: nat, size: nat, sortBy: Option<string>, sortDir: Option<string>)

  datatype PageReply = Page(rows: seq<TaskResponse>) | Failure(message: Option<string>)

  function Request(src: Source, page: nat): (r: PageRequest)
    ensures r.page == page && r.size == PageSize
  {
    match src
    case ActiveTasks => PageRequest(page, PageSize, Some("dateCreated"), Some("desc"))
    case DeletedTasks => PageRequest(page, PageSize, None, None)
  }

  function Fallback(src: Source): string {
    match src
    case ActiveTasks => "Failed to load tasks"
    case DeletedTasks => "Failed to load deleted tasks"
  }

  /**
   * The hook's list state plus what it did: every request sent, every list
   * passed to setTasks, every notice shown.
   */
  datatype LoaderState = LoaderState(
    tasks: seq<TaskResponse>,
    loading: bool,
    version: int,
    requests: seq<PageRequest>,
    published: seq<seq<TaskResponse>>,
    notices: seq<string>)

  function RowsOf(r: PageReply): seq<TaskResponse> {
    if r.Page? then r.rows else []
  }

  /** The rows of pages 0 .. n-1, in order. */
  function Concat(reply: nat -> PageReply, n: nat): seq<TaskResponse> {
    if n == 0 then [] else Concat(reply, n - 1) + RowsOf(reply(n - 1))
  }

  /** The state once the await for page has returned: a newer call may have taken a version meanwhile. */
  function Awaited(st: LoaderState, page: nat, newerAt: Option<nat>): LoaderState {
    if newerAt == Some(page) then st.(version := st.version + 1) else st
  }

  /** The request for page is sent and awaited. */
  function Sent(st: LoaderState, src: Source, page: nat, newerAt: Option<nat>): LoaderState {
    Awaited(st.(requests := st.requests + [Request(src, page)]), page, newerAt)
  }

  /** setTasks(list). */
  function Shown(st: LoaderState, list: seq<TaskResponse>): LoaderState {
    st.(tasks := list, published := st.published + [list])
  }

  function Notified(st: LoaderState, m: Option<string>, src: Source): LoaderState {
    st.(notices := st.notices + [ReadErrorMessage(m, Fallback(src))])
  }

  /**
   * The first page of a call: a new version and loading on, the request for
   * page 0, and after its await either the end of the call or the loop with
   * the first rows. A superseded call returns before its finally block touches
   * loading; a failed first page clears the list.
   */
  function FirstStep(st: LoaderState, src: Source, reply: nat -> PageReply, newerAt: Option<nat>): StepOutcome {
    var v := st.version + 1;
    var s0 := Sent(st.(version := v, loading := true), src, 0, newerAt);
    if s0.version != v then Stop(s0)
    else
      match reply(0)
      case Failure(m) => Stop(Notified(Shown(s0, []), m, src).(loading := false))
      case Page(rows) =>
        var s1 := Shown(s0, rows).(loading := false);
        if |rows| < PageSize then Stop(s1) else Continue(s1, rows)
  }

  /** What a step leaves: the loop goes on with the rows so far, or the call ends. */
  datatype StepOutcome = Continue(state: LoaderState, rows: seq<TaskResponse>) | Stop(state: LoaderState)

  /** One pass of the while loop for page, with rows fetched so far and the call's version v. */
  function PageStep(st: LoaderState, page: nat, rows: seq<TaskResponse>, v: int, src: Source,
                    reply: nat -> PageReply, newerAt: Option<nat>, publishOnEmptyPage: bool): StepOutcome
  {
    var s0 := Sent(st, src, page, newerAt);
    if s0.version != v then Stop(s0)
    else
      match reply(page)
      case Failure(m) => Stop(Notified(s0, m, src))
      case Page(data) =>
        if |data| == 0 then Stop(if publishOnEmptyPage then Shown(s0, rows) else s0)
        else
          var s1 := if page % 2 == 0 || |data| < PageSize then Shown(s0, rows + data) else s0;
          if |data| < PageSize then Stop(s1) else Continue(s1, rows + data)
  }

  /** The while loop from page on. */
  function LoopFrom(st: LoaderState, page: nat, rows: seq<TaskResponse>, v: int, src: Source,
                    reply: nat -> PageReply, newerAt: Option<nat>, publishOnEmptyPage: bool): LoaderState
    decreases MaxPages + 1 - page
  {
    if page > MaxPages then st
    else
      match PageStep(st, page, rows, v, src, reply, newerAt, publishOnEmptyPage)
      case Stop(s) => s
      case Continue(s, acc) => LoopFrom(s, page + 1, acc, v, src, reply, newerAt, publishOnEmptyPage)
  }

  /**
   * One fetch call. With publishOnEmptyPage false this is the hook as written;
   * with it true the rows are also shown when the loop ends on an empty page.
   */
  function FetchCall(st: LoaderState, src: Source, reply: nat -> PageReply, newerAt: Option<nat>, publishOnEmptyPage: bool): LoaderState {
    match FirstStep(st, src, reply, newerAt)
    case Stop(s) => s
    case Continue(s, rows) => LoopFrom(s, 1, rows, st.version + 1, src, reply, newerAt, publishOnEmptyPage)
  }

  /** fetchTasks / fetchDeletedTasks as written. */
  function Fetched(st: LoaderState, src: Source, reply: nat -> PageReply, newerAt: Option<nat>): LoaderState {
    FetchCall(st, src, reply, newerAt, false)
  }

  /** The loader with the rows also shown when the loop ends on an empty page. */
  function FetchedCorrected(st: LoaderState, src: Source, reply: nat -> PageReply, newerAt: Option<nat>): LoaderState {
    FetchCall(st, src, reply, newerAt, true)
  }

  /** A full page that arrives while the call is current moves the loop on to the next page. */
  lemma FullPageStep(st: LoaderState, page: nat, rows: seq<TaskResponse>, v: int, src: Source,
                     reply: nat -> PageReply, newerAt: Option<nat>, b: bool)
    requires page <= MaxPages && st.version == v && newerAt != Some(page)
    requires reply(page).Page? && |reply(page).rows| == PageSize
    ensures var s0 := Sent(st, src, page, newerAt);
      var acc := rows + reply(page).rows;
      LoopFrom(st, page, rows, v, src, reply, newerAt, b)
        == LoopFrom(if page % 2 == 0 then Shown(s0, acc) else s0, page + 1, acc, v, src, reply, newerAt, b)
  {
  }

  /** The requests for pages from .. to-1. */
  function Requests(src: Source, from: nat, to: nat): (r: seq<PageRequest>)
    requires from <= to
    ensures |r| == to - from
    ensures forall i | 0 <= i < |r| :: r[i] == Request(src, from + i)
  {
    seq(to - from, i requires 0 <= i < to - from => Request(src, from + i))
  }

  lemma RequestsCons(src: Source, from: nat, to: nat)
    requires from < to
    ensures Requests(src, from, to) == [Request(src, from)] + Requests(src, from + 1, to)
  {
  }

  lemma RequestsSnoc(src: Source, from: nat, to: nat)
    requires from <= to
    ensures Requests(src, from, to) + [Request(src, to)] == Requests(src, from, to + 1)
  {
  }

  /** Every page before k arrived full and no newer call started before its await returned. */
  predicate FullPagesBefore(reply: nat -> PageReply, newerAt: Option<nat>, k: nat) {
    forall j: nat | j < k :: reply(j).Page? && |reply(j).rows| == PageSize && newerAt != Some(j)
  }

  /** After full pages 0 .. k-1 the last list shown holds this many pages: the last even page's. */
  function LastShown(k: nat): nat
    requires k >= 1
  {
    if (k - 1) % 2 == 0 then k else k - 1
  }

  /** The lists shown while pages 0 .. k-1 arrived full. */
  function Publications(reply: nat -> PageReply, k: nat): seq<seq<TaskResponse>>
    requires k >= 1
  {
    if k == 1 then [Concat(reply, 1)]
    else Publications(reply, k - 1) + (if (k - 1) % 2 == 0 then [Concat(reply, k)] else [])
  }

  /** The state of a call about to request page k after full pages 0 .. k-1. */
  function Reached(st: LoaderState, src: Source, reply: nat -> PageReply, k: nat): LoaderState
    requires k >= 1
  {
    LoaderState(Concat(reply, LastShown(k)), false, st.version + 1, st.requests + Requests(src, 0, k),
                st.published + Publications(reply, k), st.notices)
  }

  lemma ReachedNext(st: LoaderState, src: Source, reply: nat -> PageReply, newerAt: Option<nat>, p: nat)
    requires p >= 1 && newerAt != Some(p)
    ensures var s0 := Sent(Reached(st, src, reply, p), src, p, newerAt);
      (if p % 2 == 0 then Shown(s0, Concat(reply, p + 1)) else s0) == Reached(st, src, reply, p + 1)
  {
    RequestsSnoc(src, 0, p);
    assert st.published + Publications(reply, p) + [Concat(reply, p + 1)] == st.published + (Publications(reply, p) + [Concat(reply, p + 1)]);
  }

  /** While pages arrive full and the call stays current, it walks through the pages in order. */
  lemma {:induction false} FullPagesReach(st: LoaderState, src: Source, reply: nat -> PageReply, newerAt: Option<nat>, b: bool, k: nat)
    requires 1 <= k <= MaxPages + 1
    requires FullPagesBefore(reply, newerAt, k)
    ensures FetchCall(st, src, reply, newerAt, b)
      == LoopFrom(Reached(st, src, reply, k), k, Concat(reply, k), st.version + 1, src, reply, newerAt, b)
  {
    if k == 1 {
      FirstPageFull(st, src, reply, newerAt);
    } else {
      var p := k - 1;
      FullPagesReach(st, src, reply, newerAt, b, p);
      FullPageStep(Reached(st, src, reply, p), p, Concat(reply, p), st.version + 1, src, reply, newerAt, b);
      ReachedNext(st, src, reply, newerAt, p);
      assert Concat(reply, p) + reply(p).rows == Concat(reply, k);
    }
  }

  lemma FirstPageFull(st: LoaderState, src: Source, reply: nat -> PageReply, newerAt: Option<nat>)
    requires reply(0).Page? && |reply(0).rows| == PageSize && newerAt != Some(0)
    ensures FirstStep(st, src, reply, newerAt) == Continue(Reached(st, src, reply, 1), Concat(reply, 1))
  {
    assert Concat(reply, 1) == reply(0).rows;
    assert Requests(src, 0, 1) == [Request(src, 0)];
  }

  /** After full pages 0 .. k-1, the call ends with whatever the pass for page k leaves when that pass stops the loop. */
  lemma EndsAt(st: LoaderState, src: Source, reply: nat -> PageReply, newerAt: Option<nat>, b: bool, k: nat)
    requires 1 <= k <= MaxPages
    requires FullPagesBefore(reply, newerAt, k)
    requires PageStep(Reached(st, src, reply, k), k, Concat(reply, k), st.version + 1, src, reply, newerAt, b).Stop?
    ensures FetchCall(st, src, reply, newerAt, b)
      == PageStep(Reached(st, src, reply, k), k, Concat(reply, k), st.version + 1, src, reply, newerAt, b).state
  {
    FullPagesReach(st, src, reply, newerAt, b, k);
  }

  /** A call whose first page is short stops there and, unless superseded, shows that page. */
  lemma FirstPageShort(st: LoaderState, src: Source, reply: nat -> PageReply, newerAt: Option<nat>, b: bool)
    requires reply(0).Page? && |reply(0).rows| < PageSize && newerAt != Some(0)
    ensures var r := FetchCall(st, src, reply, newerAt, b);
      r.tasks == reply(0).rows && !r.loading && r.notices == st.notices
      && r.requests == st.requests + [Request(src, 0)]
  {
  }

  /** A short non-empty page after full pages ends the loop and shows every row fetched. */
  lemma ShortFinalPageShowsAll(st: LoaderState, src: Source, reply: nat -> PageReply, newerAt: Option<nat>, b: bool, k: nat)
    requires 1 <= k <= MaxPages
    requires FullPagesBefore(reply, newerAt, k)
    requires reply(k).Page? && 0 < |reply(k).rows| < PageSize && newerAt != Some(k)
    ensures var r := FetchCall(st, src, reply, newerAt, b);
      r.tasks == Concat(reply, k + 1) && !r.loading && r.notices == st.notices
      && r.requests == st.requests + Requests(src, 0, k + 1)
  {
    EndsAt(st, src, reply, newerAt, b, k);
    RequestsSnoc(src, 0, k);
  }

  /**
   * An empty page after full pages ends the loop. As written only the list of
   * the last even page stays shown, so when the last full page has an odd index
   * its hundred rows never appear.
   */
  lemma EmptyFinalPageAsWritten(st: LoaderState, src: Source, reply: nat -> PageReply, newerAt: Option<nat>, k: nat)
    requires 1 <= k <= MaxPages
    requires FullPagesBefore(reply, newerAt, k)
    requires reply(k) == Page([]) && newerAt != Some(k)
    ensures var r := Fetched(st, src, reply, newerAt);
      r.tasks == Concat(reply, LastShown(k)) && !r.loading && r.notices == st.notices
      && r.requests == st.requests + Requests(src, 0, k + 1)
      && ((k - 1) % 2 == 1 ==> |r.tasks| + PageSize == |Concat(reply, k)|)
  {
    EndsAt(st, src, reply, newerAt, false, k);
    RequestsSnoc(src, 0, k);
    if (k - 1) % 2 == 1 {
      OddLastPageHidden(reply, newerAt, k);
    }
  }

  /** When the last full page has an odd index, the list shown lacks exactly that page's rows. */
  lemma OddLastPageHidden(reply: nat -> PageReply, newerAt: Option<nat>, k: nat)
    requires 1 <= k && FullPagesBefore(reply, newerAt, k) && (k - 1) % 2 == 1
    ensures |Concat(reply, LastShown(k))| + PageSize == |Concat(reply, k)|
  {
    assert reply(k - 1).Page? && |reply(k - 1).rows| == PageSize;
    assert Concat(reply, k) == Concat(reply, k - 1) + RowsOf(reply(k - 1));
  }

  /**
   * Exactly 400 rows: four full pages, then an empty one. The last list shown
   * is the copy taken at page 2, so only the first 300 rows ever appear.
   */
  lemma FourHundredRowsShowOnlyThreeHundred(st: LoaderState, src: Source, reply: nat -> PageReply)
    requires forall j: nat | j < 4 :: reply(j).Page? && |reply(j).rows| == PageSize
    requires reply(4) == Page([])
    ensures |Concat(reply, 4)| == 400
    ensures Fetched(st, src, reply, None).tasks == Concat(reply, 3)
    ensures |Fetched(st, src, reply, None).tasks| == 300
  {
    assert FullPagesBefore(reply, None, 4);
    EmptyFinalPageAsWritten(st, src, reply, None, 4);
    ConcatLength(reply, None, 4, 4);
    ConcatLength(reply, None, 3, 4);
  }

  /** With the correction the loop shows every fetched row whenever it ends on an empty page. */
  lemma EmptyFinalPageCorrected(st: LoaderState, src: Source, reply: nat -> PageReply, newerAt: Option<nat>, k: nat)
    requires 1 <= k <= MaxPages
    requires FullPagesBefore(reply, newerAt, k)
    requires reply(k) == Page([]) && newerAt != Some(k)
    ensures var r := FetchedCorrected(st, src, reply, newerAt);
      r.tasks == Concat(reply, k + 1) && !r.loading && r.notices == st.notices
  {
    EndsAt(st, src, reply, newerAt, true, k);
  }

  /** After page 1000 the loop stops even when every page was full; page 1000 is even, so all rows are shown. */
  lemma StopsAfterMaxPages(st: LoaderState, src: Source, reply: nat -> PageReply, newerAt: Option<nat>, b: bool)
    requires FullPagesBefore(reply, newerAt, MaxPages + 1)
    ensures var r := FetchCall(st, src, reply, newerAt, b);
      r.requests == st.requests + Requests(src, 0, MaxPages + 1)
      && r.tasks == Concat(reply, MaxPages + 1)
  {
    FullPagesReach(st, src, reply, newerAt, b, MaxPages + 1);
  }

  /**
   * The corrected loader shows every fetched row whenever it ends without a
   * failure or a newer call: on a short page, on an empty page or after page 1000.
   */
  lemma CorrectedShowsAllRows(st: LoaderState, src: Source, reply: nat -> PageReply, newerAt: Option<nat>, k: nat)
    requires k <= MaxPages
    requires FullPagesBefore(reply, newerAt, k)
    requires reply(k).Page? && |reply(k).rows| < PageSize && newerAt != Some(k)
    ensures FetchedCorrected(st, src, reply, newerAt).tasks == Concat(reply, k + 1)
  {
    if k == 0 {
      FirstPageShort(st, src, reply, newerAt, true);
      assert Concat(reply, 1) == reply(0).rows;
    } else if |reply(k).rows| == 0 {
      EmptyFinalPageCorrected(st, src, reply, newerAt, k);
    } else {
      ShortFinalPageShowsAll(st, src, reply, newerAt, true, k);
    }
  }

  /** A failure of page 0 clears the list, releases loading and shows the error. */
  lemma FirstPageFailure(st: LoaderState, src: Source, reply: nat -> PageReply, newerAt: Option<nat>, b: bool)
    requires reply(0).Failure? && newerAt != Some(0)
    ensures var r := FetchCall(st, src, reply, newerAt, b);
      r.tasks == [] && !r.loading && r.notices == st.notices + [ReadErrorMessage(reply(0).message, Fallback(src))]
  {
  }

  lemma {:induction false} ConcatLength(reply: nat -> PageReply, newerAt: Option<nat>, n: nat, k: nat)
    requires n <= k && FullPagesBefore(reply, newerAt, k)
    ensures |Concat(reply, n)| == n * PageSize
  {
    if n > 0 {
      ConcatLength(reply, newerAt, n - 1, k);
    }
  }

  /** A later failure keeps the last list shown, which holds at least the first page, and shows the error. */
  lemma LaterPageFailure(st: LoaderState, src: Source, reply: nat -> PageReply, newerAt: Option<nat>, b: bool, k: nat)
    requires 1 <= k <= MaxPages
    requires FullPagesBefore(reply, newerAt, k)
    requires reply(k).Failure? && newerAt != Some(k)
    ensures var r := FetchCall(st, src, reply, newerAt, b);
      r.tasks == Concat(reply, LastShown(k)) && |r.tasks| >= PageSize && !r.loading
      && r.notices == st.notices + [ReadErrorMessage(reply(k).message, Fallback(src))]
  {
    EndsAt(st, src, reply, newerAt, b, k);
    ConcatLength(reply, newerAt, LastShown(k), k);
  }

  /** A call superseded during its first await changes neither the list nor the notices, and leaves loading to the newer call. */
  lemma SupersededAtFirstPage(st: LoaderState, src: Source, reply: nat -> PageReply, b: bool)
    ensures var r := FetchCall(st, src, reply, Some(0), b);
      r.tasks == st.tasks && r.published == st.published && r.notices == st.notices
      && r.version == st.version + 2 && r.loading
  {
  }

  /** A call superseded during a later await stops there: it shows nothing more and no notice. */
  lemma SupersededLater(st: LoaderState, src: Source, reply: nat -> PageReply, b: bool, k: nat)
    requires 1 <= k <= MaxPages
    requires FullPagesBefore(reply, Some(k), k)
    ensures var r := FetchCall(st, src, reply, Some(k), b);
      var before := Reached(st, src, reply, k);
      r.tasks == before.tasks && r.published == before.published && r.notices == st.notices
      && r.requests == st.requests + Requests(src, 0, k + 1)
  {
    EndsAt(st, src, reply, Some(k), b, k);
    RequestsSnoc(src, 0, k);
  }

  /** after extends before with lists that are each the rows of the first few pages. */
  ghost predicate ShowsPrefixes(after: seq<seq<TaskResponse>>, before: seq<seq<TaskResponse>>, reply: nat -> PageReply) {
    |before| <= |after| && after[..|before|] == before
    && forall i | |before| <= i < |after| :: RowsOfFirstPages(after[i], reply)
  }

  /** list is the rows of pages 0 .. j-1 for some j up to 1001. */
  ghost predicate RowsOfFirstPages(list: seq<TaskResponse>, reply: nat -> PageReply) {
    exists j: nat | j <= MaxPages + 1 :: list == Concat(reply, j)
  }

  lemma ShowsOne(before: seq<seq<TaskResponse>>, reply: nat -> PageReply, j: nat)
    requires j <= MaxPages + 1
    ensures ShowsPrefixes(before + [Concat(reply, j)], before, reply)
  {
    var after := before + [Concat(reply, j)];
    assert RowsOfFirstPages(after[|before|], reply);
  }

  lemma ShowsTrans(a: seq<seq<TaskResponse>>, b: seq<seq<TaskResponse>>, c: seq<seq<TaskResponse>>, reply: nat -> PageReply)
    requires ShowsPrefixes(b, a, reply) && ShowsPrefixes(c, b, reply)
    ensures ShowsPrefixes(c, a, reply)
  {
    assert c[..|a|] == c[..|b|][..|a|];
    forall i | |a| <= i < |b| ensures c[i] == b[i] {
      assert c[..|b|][i] == c[i];
    }
  }

  /** The first step requests page 0, shows at most one list (page 0 or the empty one) and at most one notice. */
  lemma FirstShape(st: LoaderState, src: Source, reply: nat -> PageReply, newerAt: Option<nat>)
    ensures var out := FirstStep(st, src, reply, newerAt);
      out.state.requests == st.requests + [Request(src, 0)]
      && ShowsPrefixes(out.state.published, st.published, reply)
      && |st.notices| <= |out.state.notices| <= |st.notices| + 1
      && out.state.version > st.version
      && (newerAt.None? ==> out.state.version == st.version + 1 && !out.state.loading)
      && (out.Continue? ==> out.rows == Concat(reply, 1) && out.state.version == st.version + 1 && out.state.notices == st.notices)
  {
    var v := st.version + 1;
    var s0 := Sent(st.(version := v, loading := true), src, 0, newerAt);
    if s0.version == v {
      if reply(0).Failure? {
        ShowsOne(st.published, reply, 0);
      } else {
        assert reply(0).rows == Concat(reply, 1);
        ShowsOne(st.published, reply, 1);
      }
    }
  }

  /** One pass of the loop requests its page, shows at most one list of the first rows and at most one notice. */
  lemma StepShape(st: LoaderState, page: nat, rows: seq<TaskResponse>, v: int, src: Source,
                  reply: nat -> PageReply, newerAt: Option<nat>, b: bool)
    requires page <= MaxPages && rows == Concat(reply, page) && st.version == v
    ensures var out := PageStep(st, page, rows, v, src, reply, newerAt, b);
      out.state.requests == st.requests + [Request(src, page)]
      && ShowsPrefixes(out.state.published, st.published, reply)
      && |st.notices| <= |out.state.notices| <= |st.notices| + 1
      && out.state.version >= v && out.state.loading == st.loading
      && (newerAt.None? ==> out.state.version == v)
      && (out.Continue? ==> out.rows == Concat(reply, page + 1) && out.state.version == v && out.state.notices == st.notices)
  {
    var s0 := Sent(st, src, page, newerAt);
    if s0.version == v && reply(page).Page? {
      var data := reply(page).rows;
      if |data| == 0 {
        if b {
          ShowsOne(st.published, reply, page);
        }
      } else {
        assert rows + data == Concat(reply, page + 1);
        if page % 2 == 0 || |data| < PageSize {
          ShowsOne(st.published, reply, page + 1);
        }
      }
    }
  }

  /** From page on, the loop requests consecutive pages up to 1000 at most; pages is where it stopped. */
  lemma {:induction false} LoopShape(st: LoaderState, page: nat, rows: seq<TaskResponse>, v: int, src: Source,
                                     reply: nat -> PageReply, newerAt: Option<nat>, b: bool) returns (pages: nat)
    requires 1 <= page <= MaxPages + 1 && rows == Concat(reply, page) && st.version == v
    ensures var r := LoopFrom(st, page, rows, v, src, reply, newerAt, b);
      page <= pages <= MaxPages + 1 && r.requests == st.requests + Requests(src, page, pages)
      && ShowsPrefixes(r.published, st.published, reply)
      && |st.notices| <= |r.notices| <= |st.notices| + 1
      && r.version >= v && r.loading == st.loading
      && (newerAt.None? ==> r.version == v)
    decreases MaxPages + 1 - page
  {
    var r := LoopFrom(st, page, rows, v, src, reply, newerAt, b);
    if page > MaxPages {
      pages := page;
      assert r.requests == st.requests + Requests(src, page, page);
    } else {
      var out := PageStep(st, page, rows, v, src, reply, newerAt, b);
      StepShape(st, page, rows, v, src, reply, newerAt, b);
      if out.Stop? {
        pages := page + 1;
        assert r.requests == st.requests + Requests(src, page, page + 1);
      } else {
        pages := LoopShape(out.state, page + 1, out.rows, v, src, reply, newerAt, b);
        ShapeCompose(st, out.state, r, src, reply, page, pages);
      }
    }
  }

  /** A step that requests page and then the pages after it, up to pages, requested page .. pages-1. */
  lemma ShapeCompose(st: LoaderState, mid: LoaderState, r: LoaderState, src: Source, reply: nat -> PageReply, page: nat, pages: nat)
    requires page < pages
    requires mid.requests == st.requests + [Request(src, page)] && r.requests == mid.requests + Requests(src, page + 1, pages)
    requires ShowsPrefixes(mid.published, st.published, reply) && ShowsPrefixes(r.published, mid.published, reply)
    requires mid.notices == st.notices
    ensures r.requests == st.requests + Requests(src, page, pages)
    ensures ShowsPrefixes(r.published, st.published, reply)
  {
    RequestsCons(src, page, pages);
    ShowsTrans(st.published, mid.published, r.published, reply);
  }

  /**
   * For every reply sequence and every moment a newer call may start: one call
   * requests pages 0, 1, 2, ... in order, at most 1001 of them (pages is how
   * many), every list it shows is the rows of its first few pages (the empty
   * list after a failed first page), it shows at most one notice and takes a
   * new version, and a call nobody supersedes always ends with loading off.
   */
  lemma FetchShape(st: LoaderState, src: Source, reply: nat -> PageReply, newerAt: Option<nat>, b: bool) returns (pages: nat)
    ensures var r := FetchCall(st, src, reply, newerAt, b);
      1 <= pages <= MaxPages + 1 && r.requests == st.requests + Requests(src, 0, pages)
      && ShowsPrefixes(r.published, st.published, reply)
      && |st.notices| <= |r.notices| <= |st.notices| + 1
      && r.version > st.version
      && (newerAt.None? ==> !r.loading && r.version == st.version + 1)
  {
    var out := FirstStep(st, src, reply, newerAt);
    var r := FetchCall(st, src, reply, newerAt, b);
    FirstShape(st, src, reply, newerAt);
    if out.Stop? {
      pages := 1;
      assert r.requests == st.requests + Requests(src, 0, 1);
    } else {
      pages := LoopShape(out.state, 1, out.rows, st.version + 1, src, reply, newerAt, b);
      ShapeCompose(st, out.state, r, src, reply, 0, pages);
    }
  }

  /** useTasks / useDeletedTasks: the list state of one hook instance. */
  class TaskLoader {
    var tasks: seq<TaskResponse>
    var loading: bool
    var version: int
    var requests: seq<PageRequest>
    var published: seq<seq<TaskResponse>>
    var notices: seq<string>

    function State(): LoaderState
      reads this
    {
      LoaderState(tasks, loading, version, requests, published, notices)
    }

    constructor()
      ensures State() == LoaderState([], false, 0, [], [], [])
    {
      tasks, loading, version := [], false, 0;
      requests, published, notices := [], [], [];
    }

    /** fetchTasks (src = ActiveTasks) and fetchDeletedTasks (src = DeletedTasks). */
    method Fetch(src: Source, reply: nat -> PageReply, newerAt: Option<nat>)
      modifies this
      ensures State() == Fetched(old(State()), src, reply, newerAt)
    {
      var rows, more := LoadFirstPage(src, reply, newerAt);
      if more {
        LoadRemainingPages(src, reply, newerAt, rows, version, false);
      }
    }

    /** The fetch with the correction: the rows are also shown when the loop stops on an empty page. */
    method FetchCorrected(src: Source, reply: nat -> PageReply, newerAt: Option<nat>)
      modifies this
      ensures State() == FetchedCorrected(old(State()), src, reply, newerAt)
    {
      var rows, more := LoadFirstPage(src, reply, newerAt);
      if more {
        LoadRemainingPages(src, reply, newerAt, rows, version, true);
      }
    }

    /** The fetch up to and including page 0; more says whether the loop runs. */
    method LoadFirstPage(src: Source, reply: nat -> PageReply, newerAt: Option<nat>) returns (rows: seq<TaskResponse>, more: bool)
      modifies this
      ensures FirstStep(old(State()), src, reply, newerAt) == if more then Continue(State(), rows) else Stop(State())
      ensures more ==> version == old(version) + 1
    {
      version := version + 1;
      var fetchVersion := version;
      loading := true;
      requests := requests + [Request(src, 0)];
      if newerAt == Some(0) {
        version := version + 1;
      }
      var firstPage := reply(0);
      if fetchVersion != version {
        return [], false;
      }
      if firstPage.Failure? {
        tasks := [];
        published := published + [[]];
        notices := notices + [ReadErrorMessage(firstPage.message, Fallback(src))];
        loading := false;
        return [], false;
      }
      rows := firstPage.rows;
      tasks := rows;
      published := published + [rows];
      loading := false;
      more := |firstPage.rows| >= PageSize;
    }

    /** The while loop of the fetch, from page 1 on; publishOnEmptyPage selects the corrected break. */
    method LoadRemainingPages(src: Source, reply: nat -> PageReply, newerAt: Option<nat>, firstRows: seq<TaskResponse>, fetchVersion: int,
                              publishOnEmptyPage: bool)
      requires version == fetchVersion
      modifies this
      ensures State() == LoopFrom(old(State()), 1, firstRows, fetchVersion, src, reply, newerAt, publishOnEmptyPage)
    {
      var rows := firstRows;
      var page: nat := 1;
      while page <= MaxPages
        invariant 1 <= page <= MaxPages + 1
        invariant version == fetchVersion
        invariant LoopFrom(State(), page, rows, fetchVersion, src, reply, newerAt, publishOnEmptyPage)
          == LoopFrom(old(State()), 1, firstRows, fetchVersion, src, reply, newerAt, publishOnEmptyPage)
        decreases MaxPages + 1 - page
      {
        requests := requests + [Request(src, page)];
        if newerAt == Some(page) {
          version := version + 1;
        }
        var data := reply(page);
        if fetchVersion != version {
          return;
        }
        if data.Failure? {
          notices := notices + [ReadErrorMessage(data.message, Fallback(src))];
          return;
        }
        if |data.rows| == 0 {
          if publishOnEmptyPage {
            tasks := rows;
            published := published + [rows];
          }
          return;
        }
        rows := rows + data.rows;
        if page % 2 == 0 || |data.rows| < PageSize {
          tasks := rows;
          published := published + [rows];
        }
        if |data.rows| < PageSize {
          return;
        }
        page := page + 1;
      }
    }
  }
}
