/** The pure parts of `ProductivityApp`: the two-stage task filter behind the
    status combo box and the search box, and the chart labels of the project
    progress chart. */
module App {
  import opened Schema
  import opened Sequences
  import opened Text
  import opened Queries

  /** The status combo box entry that stands for "no status filter". */
  const AllStatuses := "All"

  /** The `status` argument `filter_tasks` passes to `get_tasks`. */
  function StatusArgument(selector: string): Option<string>
  {
    if selector == AllStatuses then None else Some(selector)
  }

  /** The lowered search text occurs in the lowered title, description or
      category; a NULL description or category counts as empty. */
  predicate SearchHit(q: string, t: Task)
  {
    || Contains(Lower(t.title), q)
    || Contains(Lower(OrEmpty(t.description)), q)
    || Contains(Lower(OrEmpty(t.category)), q)
  }

  function SearchFilter(q: string): TaskRow -> bool
  {
    (row: TaskRow) => SearchHit(q, row.task)
  }

  /** `filter_tasks`: the store's status-filtered listing, then the in-memory
      search filter when the lowered search text is non-empty. The result keeps
      the listing's order, and an empty search shows the listing unchanged. */
  function FilterTasks(ts: seq<Task>, ps: seq<Project>, selector: string, search: string): (r: seq<TaskRow>)
    ensures SubsequenceOf(r, ListTasks(ts, ps, StatusArgument(selector), None))
    ensures search == "" ==> r == ListTasks(ts, ps, StatusArgument(selector), None)
    ensures forall row :: row in r <==>
      row in ListTasks(ts, ps, StatusArgument(selector), None) && (Lower(search) == "" || SearchHit(Lower(search), row.task))
  {
    var rows := ListTasks(ts, ps, StatusArgument(selector), None);
    var q := Lower(search);
    if q != "" then
      FilterIsSubsequence(rows, SearchFilter(q));
      FilterMembers(rows, SearchFilter(q));
      Filter(rows, SearchFilter(q))
    else
      SubsequenceOfSelf(rows);
      rows
  }

  /** What the two stages show together: the rows that pass the status
      selector and the search. */
  predicate Visible(selector: string, q: string, row: TaskRow)
  {
    MatchesFilters(row.task, StatusArgument(selector), None) && (q == "" || SearchHit(q, row.task))
  }

  function VisibleFilter(selector: string, q: string): TaskRow -> bool
  {
    (row: TaskRow) => Visible(selector, q, row)
  }

  /** Narrowing by status in the store and then searching in memory gives the
      same rows, in the same order, as one filter by both conditions followed
      by the listing's ORDER BY. */
  lemma TwoStageIsOneFilter(ts: seq<Task>, ps: seq<Project>, selector: string, search: string)
    ensures FilterTasks(ts, ps, selector, search)
         == SortDesc(Filter(Join(ts, ps), VisibleFilter(selector, Lower(search))), TaskCreated)
  {
    var q := Lower(search);
    var joined := Join(ts, ps);
    var byStatus := RowFilter(StatusArgument(selector), None);
    if q == "" {
      FilterSameCondition(joined, byStatus, VisibleFilter(selector, q));
    } else {
      FilterSortDesc(Filter(joined, byStatus), TaskCreated, SearchFilter(q));
      FilterFilter(joined, byStatus, SearchFilter(q), VisibleFilter(selector, q));
    }
  }

  /** Upper and lower case in the search text do not matter. */
  lemma SearchIgnoresCase(ts: seq<Task>, ps: seq<Project>, selector: string, search: string)
    ensures FilterTasks(ts, ps, selector, search) == FilterTasks(ts, ps, selector, Lower(search))
  {
    LowerIdempotent(search);
  }

  /** A concrete status selector shows only tasks in that status. */
  lemma SelectedStatusOnly(ts: seq<Task>, ps: seq<Project>, selector: string, search: string)
    requires selector != AllStatuses && selector != ""
    ensures forall row :: row in FilterTasks(ts, ps, selector, search) ==> row.task.status == selector && row.task in ts
  {
    ListTasksSpec(ts, ps, StatusArgument(selector), None);
  }

  /** "All" with an empty search shows every task. */
  lemma AllShowsEveryTask(ts: seq<Task>, ps: seq<Project>)
    ensures |FilterTasks(ts, ps, AllStatuses, "")| == |ts|
    ensures forall t :: t in ts ==> exists row :: row in FilterTasks(ts, ps, AllStatuses, "") && row.task == t
  {
    ListAllTasks(ts, ps);
  }

  /** The label of a project in the progress chart: `name[:10] + '...'` for
      names longer than ten characters, the name itself otherwise. */
  function ChartLabel(name: string): (r: string)
    ensures |r| <= 13
    ensures |name| <= 10 ==> r == name
    ensures |name| > 10 ==> |r| == 13 && r[..10] == name[..10] && r[10..] == "..."
  {
    if |name| > 10 then name[..10] + "..." else name
  }

  /** The labels of the first five projects of the listing (`projects[:5]`). */
  function ChartLabels(rows: seq<ProjectRow>): (r: seq<string>)
    ensures |r| == if |rows| < 5 then |rows| else 5
    ensures forall i :: 0 <= i < |r| ==> |r[i]| <= 13 && r[i] == ChartLabel(rows[i].project.name)
  {
    var n := if |rows| < 5 then |rows| else 5;
    seq(n, i requires 0 <= i < n => ChartLabel(rows[i].project.name))
  }
}
