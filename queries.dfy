/** The SQL statements of `DatabaseManager` as functions over the table
    contents: the filtered, joined and ordered task listing, the status update,
    the delete, the per-project rollup and the three GROUP BY counts. */
module Queries {
  import opened Schema
  import opened Sequences

  // ---------------------------------------------------------------------
  // get_tasks: LEFT JOIN projects, optional WHERE filters, ORDER BY created DESC
  // ---------------------------------------------------------------------

  /** `LEFT JOIN projects p ON t.project_id = p.id`: the name of the project
      the reference points at, or NULL when it is NULL or dangling. */
  function ProjectName(ps: seq<Project>, pid: Option<int>): (r: Option<string>)
    ensures r.None? <==> pid.None? || forall i :: 0 <= i < |ps| ==> ps[i].id != pid.value
    ensures r.Some? ==> exists i :: 0 <= i < |ps| && ps[i].id == pid.value && ps[i].name == r.value
  {
    if pid.None? || ps == [] then None
    else if ps[0].id == pid.value then Some(ps[0].name)
    else
      var r := ProjectName(ps[1..], pid);
      assert forall i :: 1 <= i < |ps| ==> ps[i] == ps[1..][i - 1];
      r
  }

  /** Since project ids are unique, the joined name is that of the one project
      carrying the id. */
  lemma {:induction false} ProjectNameOfId(ps: seq<Project>, last: nat, k: int)
    requires ProjectsKeyed(ps, last) && 0 <= k < |ps|
    ensures ProjectName(ps, Some(ps[k].id)) == Some(ps[k].name)
  {
    if k > 0 {
      assert ps[0].id < ps[k].id;
      assert ProjectsKeyed(ps[1..], last) by {
        assert forall i :: 0 <= i < |ps[1..]| ==> ps[1..][i] == ps[i + 1];
      }
      ProjectNameOfId(ps[1..], last, k - 1);
    }
  }

  function Join(ts: seq<Task>, ps: seq<Project>): (r: seq<TaskRow>)
    ensures |r| == |ts|
    ensures forall i :: 0 <= i < |ts| ==> r[i].task == ts[i] && r[i].projectName == ProjectName(ps, ts[i].projectId)
  {
    seq(|ts|, i requires 0 <= i < |ts| => TaskRow(ts[i], ProjectName(ps, ts[i].projectId)))
  }

  /** The WHERE clause: each filter applies only when its argument is truthy
      (a non-empty status, a non-zero project id); the two combine with AND. */
  predicate MatchesFilters(t: Task, status: Option<string>, projectId: Option<int>)
  {
    && (status.Some? && status.value != "" ==> t.status == status.value)
    && (projectId.Some? && projectId.value != 0 ==> t.projectId == projectId)
  }

  function RowFilter(status: Option<string>, projectId: Option<int>): TaskRow -> bool
  {
    (row: TaskRow) => MatchesFilters(row.task, status, projectId)
  }

  function TaskCreated(row: TaskRow): int
  {
    row.task.created
  }

  /** The rows `get_tasks(status, project_id)` returns: no more rows than
      tasks, each passing the filters, newest first: the matching joined rows,
      each as often as it occurs. */
  function ListTasks(ts: seq<Task>, ps: seq<Project>, status: Option<string>, projectId: Option<int>): (r: seq<TaskRow>)
    ensures |r| <= |ts|
    ensures multiset(r) == multiset(Filter(Join(ts, ps), RowFilter(status, projectId)))
    ensures SortedDesc(r, TaskCreated)
    ensures forall i :: 0 <= i < |r| ==> MatchesFilters(r[i].task, status, projectId)
  {
    var keep := RowFilter(status, projectId);
    var matching := Filter(Join(ts, ps), keep);
    SortDescCorrect(matching, TaskCreated);
    SortDescKeeps(matching, TaskCreated, keep);
    SortDesc(matching, TaskCreated)
  }

  /** A falsy filter argument (an empty status, project id 0) is no filter:
      `if status:` and `if project_id:` skip it. */
  lemma FalsyFiltersAreAbsent(ts: seq<Task>, ps: seq<Project>, status: Option<string>, projectId: Option<int>)
    requires status == None || status == Some("")
    requires projectId == None || projectId == Some(0)
    ensures ListTasks(ts, ps, status, projectId) == ListTasks(ts, ps, None, None)
  {
    FilterSameCondition(Join(ts, ps), RowFilter(status, projectId), RowFilter(None, None));
  }

  /** `get_tasks` returns each matching task exactly as often as it is stored,
      joined with its project's name, and nothing else, newest first. */
  lemma ListTasksSpec(ts: seq<Task>, ps: seq<Project>, status: Option<string>, projectId: Option<int>)
    ensures var r := ListTasks(ts, ps, status, projectId);
      && multiset(r) == multiset(Filter(Join(ts, ps), RowFilter(status, projectId)))
      && SortedDesc(r, TaskCreated)
      && (forall row :: row in r <==>
            row.task in ts && row.projectName == ProjectName(ps, row.task.projectId)
            && MatchesFilters(row.task, status, projectId))
  {
    var joined := Join(ts, ps);
    var matching := Filter(joined, RowFilter(status, projectId));
    SortDescCorrect(matching, TaskCreated);
    SortDescMembership(matching, TaskCreated);
    FilterMembers(joined, RowFilter(status, projectId));
    forall row
      ensures row in joined <==> row.task in ts && row.projectName == ProjectName(ps, row.task.projectId)
    {
      if row.task in ts {
        var i :| 0 <= i < |ts| && ts[i] == row.task;
        assert joined[i].task == row.task;
      }
    }
  }

  /** With no filter, `get_tasks` lists every stored task once per row. */
  lemma {:induction false} ListAllTasks(ts: seq<Task>, ps: seq<Project>)
    ensures |ListTasks(ts, ps, None, None)| == |ts|
    ensures forall t :: t in ts ==> exists row :: row in ListTasks(ts, ps, None, None) && row.task == t
  {
    var joined := Join(ts, ps);
    FilterKeepsAll(joined, RowFilter(None, None));
    SortDescCorrect(joined, TaskCreated);
    ListTasksSpec(ts, ps, None, None);
    forall t | t in ts
      ensures exists row :: row in ListTasks(ts, ps, None, None) && row.task == t
    {
      assert TaskRow(t, ProjectName(ps, t.projectId)) in ListTasks(ts, ps, None, None);
    }
  }

  // ---------------------------------------------------------------------
  // update_task_status
  // ---------------------------------------------------------------------

  /** `UPDATE tasks SET status = ?, completed_date = ? WHERE id = ?`: the row
      with that id gets the new status, and a completion time exactly when the
      new status is 'completed'; no other column and no other row changes. */
  function SetStatus(ts: seq<Task>, id: int, status: string, now: int): (r: seq<Task>)
    ensures |r| == |ts|
    ensures forall i :: 0 <= i < |ts| && ts[i].id != id ==> r[i] == ts[i]
    ensures forall i :: 0 <= i < |ts| && ts[i].id == id ==>
      && r[i] == ts[i].(status := r[i].status, completed := r[i].completed)
      && r[i].status == status
      && (r[i].completed.Some? <==> status == Completed)
      && (r[i].completed.Some? ==> r[i].completed.value == now)
  {
    if ts == [] then []
    else
      var head := if ts[0].id == id
        then ts[0].(status := status, completed := if status == Completed then Some(now) else None)
        else ts[0];
      [head] + SetStatus(ts[1..], id, status, now)
  }

  /** Updating an id that no row carries leaves the table as it was. */
  lemma SetStatusMissingId(ts: seq<Task>, id: int, status: string, now: int)
    requires forall i :: 0 <= i < |ts| ==> ts[i].id != id
    ensures SetStatus(ts, id, status, now) == ts
  {
  }

  /** Of two status updates to the same row only the later one shows. */
  lemma SetStatusLastWins(ts: seq<Task>, id: int, s1: string, n1: int, s2: string, n2: int)
    ensures SetStatus(SetStatus(ts, id, s1, n1), id, s2, n2) == SetStatus(ts, id, s2, n2)
  {
    var a := SetStatus(SetStatus(ts, id, s1, n1), id, s2, n2);
    var b := SetStatus(ts, id, s2, n2);
    assert forall i :: 0 <= i < |ts| ==> a[i] == b[i];
  }

  /** Completing a task and then moving it back to 'todo' gives back a task
      that had never been completed: the completion time is cleared again. */
  lemma {:induction false} CompleteThenReopen(ts: seq<Task>, id: int, n1: int, n2: int)
    requires forall i :: 0 <= i < |ts| && ts[i].id == id ==> ts[i].status == Todo && ts[i].completed.None?
    ensures SetStatus(SetStatus(ts, id, Completed, n1), id, Todo, n2) == ts
  {
    SetStatusLastWins(ts, id, Completed, n1, Todo, n2);
    var r := SetStatus(ts, id, Todo, n2);
    forall i | 0 <= i < |ts|
      ensures r[i] == ts[i]
    {
      if ts[i].id == id {
        assert r[i].completed.None?;
      }
    }
  }

  lemma SetStatusKeepsKeys(ts: seq<Task>, id: int, status: string, now: int, last: nat)
    requires TasksKeyed(ts, last)
    ensures TasksKeyed(SetStatus(ts, id, status, now), last)
  {
    var r := SetStatus(ts, id, status, now);
    assert forall i :: 0 <= i < |ts| ==> r[i].id == ts[i].id;
  }

  // ---------------------------------------------------------------------
  // delete_task
  // ---------------------------------------------------------------------

  function NotId(id: int): Task -> bool
  {
    (t: Task) => t.id != id
  }

  /** `DELETE FROM tasks WHERE id = ?`: the rows that remain are the rows
      whose id differs, in their stored order. */
  function RemoveTask(ts: seq<Task>, id: int): (r: seq<Task>)
    ensures |r| <= |ts|
    ensures forall t :: t in r <==> t in ts && t.id != id
  {
    FilterMembers(ts, NotId(id));
    Filter(ts, NotId(id))
  }

  /** Deleting an id that no row carries leaves the table as it was. */
  lemma RemoveTaskMissingId(ts: seq<Task>, id: int)
    requires forall i :: 0 <= i < |ts| ==> ts[i].id != id
    ensures RemoveTask(ts, id) == ts
  {
    FilterKeepsAll(ts, NotId(id));
  }

  /** With unique ids, deleting a stored id removes exactly that one row. */
  lemma {:induction false} RemoveTaskExact(ts: seq<Task>, last: nat, k: int)
    requires TasksKeyed(ts, last) && 0 <= k < |ts|
    ensures RemoveTask(ts, ts[k].id) == ts[..k] + ts[k + 1..]
  {
    var id := ts[k].id;
    var a, b := ts[..k], ts[k + 1..];
    assert ts == a + [ts[k]] + b;
    assert forall i :: 0 <= i < |a| ==> a[i] == ts[i];
    assert forall i :: 0 <= i < |b| ==> b[i] == ts[k + 1 + i];
    FilterDropsOne(a, ts[k], b, NotId(id));
  }

  /** Dropping rows keeps the ids strictly increasing. */
  lemma {:induction false} FilterKeepsKeys(ts: seq<Task>, p: Task -> bool, last: nat)
    requires TasksKeyed(ts, last)
    ensures TasksKeyed(Filter(ts, p), last)
  {
    if ts != [] {
      var tail := ts[1..];
      assert TasksKeyed(tail, last) by {
        assert forall i :: 0 <= i < |tail| ==> tail[i] == ts[i + 1];
      }
      FilterKeepsKeys(tail, p, last);
      if p(ts[0]) {
        FilterAboveHead(ts, p, last);
      } else {
        assert Filter(ts, p) == Filter(tail, p);
      }
    }
  }

  lemma FilterAboveHead(ts: seq<Task>, p: Task -> bool, last: nat)
    requires ts != [] && p(ts[0])
    requires TasksKeyed(ts, last) && TasksKeyed(Filter(ts[1..], p), last)
    ensures TasksKeyed(Filter(ts, p), last)
  {
    var tail := ts[1..];
    var rest := Filter(tail, p);
    var f := Filter(ts, p);
    assert f == [ts[0]] + rest;
    forall i | 0 <= i < |rest|
      ensures ts[0].id < rest[i].id
    {
      FilterMembers(tail, p);
      assert rest[i] in tail;
      var j :| 0 <= j < |tail| && tail[j] == rest[i];
      assert tail[j] == ts[j + 1];
    }
    forall i, j | 0 <= i < j < |f|
      ensures f[i].id < f[j].id
    {
      assert f[j] == rest[j - 1];
      if i > 0 {
        assert f[i] == rest[i - 1];
      }
    }
    forall i | 0 <= i < |f|
      ensures 1 <= f[i].id <= last
    {
      if i > 0 {
        assert f[i] == rest[i - 1];
      }
    }
  }

  lemma RemoveTaskKeepsKeys(ts: seq<Task>, id: int, last: nat)
    requires TasksKeyed(ts, last)
    ensures TasksKeyed(RemoveTask(ts, id), last)
  {
    FilterKeepsKeys(ts, NotId(id), last);
  }

  // ---------------------------------------------------------------------
  // get_projects: COUNT(t.id) and COUNT(CASE WHEN status = 'completed' ...)
  // ---------------------------------------------------------------------

  function InProject(pid: int): Task -> bool
  {
    (t: Task) => t.projectId == Some(pid)
  }

  function CompletedInProject(pid: int): Task -> bool
  {
    (t: Task) => t.projectId == Some(pid) && t.status == Completed
  }

  function ProjectCreated(row: ProjectRow): int
  {
    row.project.created
  }

  function ProjectCounts(ts: seq<Task>, p: Project): ProjectRow
  {
    ProjectRow(p, Count(ts, InProject(p.id)), Count(ts, CompletedInProject(p.id)))
  }

  /** The rows `get_projects()` returns: one per project, with its counts,
      newest first. */
  function Rollup(ts: seq<Task>, ps: seq<Project>): (r: seq<ProjectRow>)
    ensures |r| == |ps|
    ensures multiset(r) == multiset(seq(|ps|, i requires 0 <= i < |ps| => ProjectCounts(ts, ps[i])))
    ensures SortedDesc(r, ProjectCreated)
  {
    var rows := seq(|ps|, i requires 0 <= i < |ps| => ProjectCounts(ts, ps[i]));
    SortDescCorrect(rows, ProjectCreated);
    SortDesc(rows, ProjectCreated)
  }

  /** A project's completed count never exceeds its total. */
  lemma CompletedAtMostTotal(ts: seq<Task>, pid: int)
    ensures Count(ts, CompletedInProject(pid)) <= Count(ts, InProject(pid))
  {
    CountMonotonic(ts, CompletedInProject(pid), InProject(pid));
  }

  /** `get_projects` lists every project once, newest first, each with the
      number of tasks that reference it and how many of those are completed. */
  lemma RollupSpec(ts: seq<Task>, ps: seq<Project>)
    ensures var r := Rollup(ts, ps);
      && |r| == |ps|
      && SortedDesc(r, ProjectCreated)
      && (forall row :: row in r ==>
            && row.project in ps
            && row.totalTasks == Count(ts, InProject(row.project.id))
            && row.completedTasks == Count(ts, CompletedInProject(row.project.id))
            && row.completedTasks <= row.totalTasks)
      && (forall p :: p in ps ==> ProjectCounts(ts, p) in r)
  {
    var rows := seq(|ps|, i requires 0 <= i < |ps| => ProjectCounts(ts, ps[i]));
    var r := Rollup(ts, ps);
    assert r == SortDesc(rows, ProjectCreated);
    SortDescCorrect(rows, ProjectCreated);
    SortDescMembership(rows, ProjectCreated);
    forall row | row in r
      ensures row.project in ps
      ensures row.totalTasks == Count(ts, InProject(row.project.id))
      ensures row.completedTasks == Count(ts, CompletedInProject(row.project.id))
      ensures row.completedTasks <= row.totalTasks
    {
      assert row in rows;
      var i :| 0 <= i < |rows| && rows[i] == row;
      assert row == ProjectCounts(ts, ps[i]);
      CompletedAtMostTotal(ts, row.project.id);
    }
    forall p | p in ps
      ensures ProjectCounts(ts, p) in r
    {
      var i :| 0 <= i < |ps| && ps[i] == p;
      assert rows[i] == ProjectCounts(ts, p);
      assert rows[i] in rows;
    }
  }

  /** Each project's counts row is somewhere in the rollup. */
  lemma RollupHasRow(ts: seq<Task>, ps: seq<Project>, i: int)
    requires 0 <= i < |ps|
    ensures ProjectCounts(ts, ps[i]) in Rollup(ts, ps)
  {
    var rows := seq(|ps|, i requires 0 <= i < |ps| => ProjectCounts(ts, ps[i]));
    assert rows[i] in multiset(rows);
  }

  /** A project no task references reports 0 of 0. */
  lemma EmptyProjectCounts(ts: seq<Task>, p: Project)
    requires forall i :: 0 <= i < |ts| ==> ts[i].projectId != Some(p.id as int)
    ensures ProjectCounts(ts, p).totalTasks == 0 && ProjectCounts(ts, p).completedTasks == 0
  {
    CountNone(ts, InProject(p.id));
    CountNone(ts, CompletedInProject(p.id));
  }

  /** Deleting a task lowers its project's total by one and leaves every
      other project's total alone. */
  lemma DeleteLowersProjectTotal(ts: seq<Task>, last: nat, k: int, pid: int)
    requires TasksKeyed(ts, last) && 0 <= k < |ts|
    ensures Count(RemoveTask(ts, ts[k].id), InProject(pid))
         == Count(ts, InProject(pid)) - (if ts[k].projectId == Some(pid) then 1 else 0)
  {
    RemoveTaskExact(ts, last, k);
    CountSkip(ts, k, InProject(pid));
  }

  /** Adding a task raises the total of the project it references by one. */
  lemma AddRaisesProjectTotal(ts: seq<Task>, t: Task, pid: int)
    ensures Count(ts + [t], InProject(pid))
         == Count(ts, InProject(pid)) + (if t.projectId == Some(pid) then 1 else 0)
  {
    CountAppend(ts, [t], InProject(pid));
  }

  // ---------------------------------------------------------------------
  // get_task_statistics: SELECT key, COUNT(*) ... GROUP BY key
  // ---------------------------------------------------------------------

  /** The count a GROUP BY result gives for `key` (0 when absent). */
  function CountOf(gs: seq<Group>, key: string): nat
  {
    if gs == [] then 0
    else if gs[0].key == key then gs[0].count
    else CountOf(gs[1..], key)
  }

  function Total(gs: seq<Group>): nat
  {
    if gs == [] then 0 else gs[0].count + Total(gs[1..])
  }

  ghost predicate DistinctKeys(gs: seq<Group>)
  {
    forall i, j :: 0 <= i < j < |gs| ==> gs[i].key != gs[j].key
  }

  /** Counts one more row with `key`. */
  function Bump(gs: seq<Group>, key: string): seq<Group>
  {
    if gs == [] then [Group(key, 1)]
    else if gs[0].key == key then [Group(key, gs[0].count + 1)] + gs[1..]
    else [gs[0]] + Bump(gs[1..], key)
  }

  /** The result of `GROUP BY` over a column's values. */
  function GroupCount(xs: seq<string>): seq<Group>
  {
    if xs == [] then [] else Bump(GroupCount(xs[1..]), xs[0])
  }

  lemma {:induction false} BumpTotal(gs: seq<Group>, key: string)
    ensures Total(Bump(gs, key)) == Total(gs) + 1
  {
    if gs != [] {
      var b := Bump(gs, key);
      if gs[0].key == key {
        assert b[1..] == gs[1..];
      } else {
        assert b[1..] == Bump(gs[1..], key);
        BumpTotal(gs[1..], key);
      }
    }
  }

  lemma {:induction false} BumpCount(gs: seq<Group>, key: string, k: string)
    ensures CountOf(Bump(gs, key), k) == CountOf(gs, k) + (if k == key then 1 else 0)
  {
    if gs != [] {
      var b := Bump(gs, key);
      if gs[0].key == key {
        assert b[1..] == gs[1..];
      } else {
        assert b[1..] == Bump(gs[1..], key);
        BumpCount(gs[1..], key, k);
      }
    }
  }

  lemma {:induction false} BumpKeys(gs: seq<Group>, key: string)
    requires DistinctKeys(gs)
    ensures DistinctKeys(Bump(gs, key))
    ensures forall i :: 0 <= i < |Bump(gs, key)| ==>
      Bump(gs, key)[i].key == key || exists j :: 0 <= j < |gs| && gs[j].key == Bump(gs, key)[i].key
  {
    if gs != [] {
      var tail := gs[1..];
      var b := Bump(gs, key);
      if gs[0].key == key {
        assert forall i :: 1 <= i < |b| ==> b[i] == gs[i];
      } else {
        assert DistinctKeys(tail) by {
          assert forall i :: 0 <= i < |tail| ==> tail[i] == gs[i + 1];
        }
        BumpKeys(tail, key);
        var bt := Bump(tail, key);
        assert b == [gs[0]] + bt;
        forall i | 0 <= i < |bt| && bt[i].key != key
          ensures exists j :: 0 <= j < |gs| && gs[j].key == bt[i].key
          ensures bt[i].key != gs[0].key
        {
          var j :| 0 <= j < |tail| && tail[j].key == bt[i].key;
          assert gs[j + 1] == tail[j];
        }
      }
    }
  }

  lemma {:induction false} BumpPositive(gs: seq<Group>, key: string)
    requires forall i :: 0 <= i < |gs| ==> gs[i].count > 0
    ensures forall i :: 0 <= i < |Bump(gs, key)| ==> Bump(gs, key)[i].count > 0
  {
    if gs != [] {
      var b := Bump(gs, key);
      if gs[0].key == key {
        assert forall i :: 1 <= i < |b| ==> b[i] == gs[i];
      } else {
        var tail := gs[1..];
        assert forall i :: 0 <= i < |tail| ==> tail[i] == gs[i + 1];
        BumpPositive(tail, key);
        assert b == [gs[0]] + Bump(tail, key);
      }
    }
  }

  /** Counting one more row with `key` raises that key's count by one, and
      only that key's, keeps the keys distinct and the counts positive. */
  lemma BumpSpec(gs: seq<Group>, key: string)
    requires DistinctKeys(gs)
    ensures DistinctKeys(Bump(gs, key))
    ensures Total(Bump(gs, key)) == Total(gs) + 1
    ensures forall k :: CountOf(Bump(gs, key), k) == CountOf(gs, k) + (if k == key then 1 else 0)
    ensures forall i :: 0 <= i < |Bump(gs, key)| ==>
      Bump(gs, key)[i].key == key || exists j :: 0 <= j < |gs| && gs[j].key == Bump(gs, key)[i].key
    ensures (forall i :: 0 <= i < |gs| ==> gs[i].count > 0) ==>
      forall i :: 0 <= i < |Bump(gs, key)| ==> Bump(gs, key)[i].count > 0
  {
    BumpTotal(gs, key);
    BumpKeys(gs, key);
    forall k
      ensures CountOf(Bump(gs, key), k) == CountOf(gs, k) + (if k == key then 1 else 0)
    {
      BumpCount(gs, key, k);
    }
    if forall i :: 0 <= i < |gs| ==> gs[i].count > 0 {
      BumpPositive(gs, key);
    }
  }

  lemma {:induction false} CountOfAbsent(gs: seq<Group>, key: string)
    requires forall i :: 0 <= i < |gs| ==> gs[i].key != key
    ensures CountOf(gs, key) == 0
  {
    if gs != [] {
      assert forall i :: 0 <= i < |gs[1..]| ==> gs[1..][i] == gs[i + 1];
      CountOfAbsent(gs[1..], key);
    }
  }

  /** With distinct keys, the count a key's row carries is the count of that key. */
  lemma {:induction false} CountOfAt(gs: seq<Group>, i: int)
    requires DistinctKeys(gs) && 0 <= i < |gs|
    ensures CountOf(gs, gs[i].key) == gs[i].count
  {
    if i > 0 {
      assert gs[0].key != gs[i].key;
      assert DistinctKeys(gs[1..]) by {
        assert forall k :: 0 <= k < |gs[1..]| ==> gs[1..][k] == gs[k + 1];
      }
      CountOfAt(gs[1..], i - 1);
    }
  }

  /** A GROUP BY count has one row per distinct value, each with the number
      of times that value occurs, and the counts add up to the row count. */
  lemma {:induction false} GroupCountSpec(xs: seq<string>)
    ensures var g := GroupCount(xs);
      && DistinctKeys(g)
      && Total(g) == |xs|
      && (forall k :: CountOf(g, k) == multiset(xs)[k])
      && (forall i :: 0 <= i < |g| ==> g[i].count > 0 && g[i].key in xs)
  {
    if xs != [] {
      GroupCountSpec(xs[1..]);
      var g := GroupCount(xs[1..]);
      BumpSpec(g, xs[0]);
      assert xs == [xs[0]] + xs[1..];
      var b := Bump(g, xs[0]);
      forall i | 0 <= i < |b|
        ensures b[i].key in xs
      {
        if b[i].key != xs[0] {
          var j :| 0 <= j < |g| && g[j].key == b[i].key;
        }
      }
    }
  }

  /** Every value that occurs has its row in a GROUP BY count. */
  lemma GroupCountCovers(xs: seq<string>, x: string)
    requires x in xs
    ensures exists i :: 0 <= i < |GroupCount(xs)| && GroupCount(xs)[i].key == x
  {
    GroupCountSpec(xs);
    var g := GroupCount(xs);
    if forall i :: 0 <= i < |g| ==> g[i].key != x {
      CountOfAbsent(g, x);
    }
  }

  function Statuses(ts: seq<Task>): seq<string>
  {
    if ts == [] then [] else [ts[0].status] + Statuses(ts[1..])
  }

  function Priorities(ts: seq<Task>): seq<string>
  {
    if ts == [] then [] else [ts[0].priority] + Priorities(ts[1..])
  }

  /** `WHERE category != ''`: a NULL category fails the comparison too. */
  predicate HasCategory(t: Task)
  {
    t.category.Some? && t.category.value != ""
  }

  function Categories(ts: seq<Task>): seq<string>
  {
    if ts == [] then []
    else (if HasCategory(ts[0]) then [ts[0].category.value] else []) + Categories(ts[1..])
  }

  /** What `get_task_statistics()` returns. The status and priority counts
      each add up to the number of tasks; the category counts add up to the
      number of tasks with a non-empty category, and no group is ever
      reported for the empty category. */
  function TaskStatistics(ts: seq<Task>): (r: Statistics)
    ensures Total(r.status) == |ts|
    ensures Total(r.priority) == |ts|
    ensures Total(r.category) == Count(ts, HasCategory)
    ensures CountOf(r.category, "") == 0
  {
    GroupCountSpec(Statuses(ts));
    GroupCountSpec(Priorities(ts));
    GroupCountSpec(Categories(ts));
    StatusesCount(ts, "");
    PrioritiesCount(ts, "");
    CategoriesCount(ts, "");
    CountNone(ts, WithCategory(""));
    Statistics(GroupCount(Statuses(ts)), GroupCount(Categories(ts)), GroupCount(Priorities(ts)))
  }

  function WithStatus(s: string): Task -> bool
  {
    (t: Task) => t.status == s
  }

  function WithPriority(s: string): Task -> bool
  {
    (t: Task) => t.priority == s
  }

  function WithCategory(c: string): Task -> bool
  {
    (t: Task) => HasCategory(t) && t.category.value == c
  }

  lemma {:induction false} StatusesCount(ts: seq<Task>, s: string)
    ensures |Statuses(ts)| == |ts|
    ensures multiset(Statuses(ts))[s] == Count(ts, WithStatus(s))
  {
    if ts != [] {
      StatusesCount(ts[1..], s);
    }
  }

  lemma {:induction false} PrioritiesCount(ts: seq<Task>, s: string)
    ensures |Priorities(ts)| == |ts|
    ensures multiset(Priorities(ts))[s] == Count(ts, WithPriority(s))
  {
    if ts != [] {
      PrioritiesCount(ts[1..], s);
    }
  }

  lemma {:induction false} CategoriesCount(ts: seq<Task>, c: string)
    ensures |Categories(ts)| == Count(ts, HasCategory)
    ensures multiset(Categories(ts))[c] == Count(ts, WithCategory(c))
  {
    if ts != [] {
      CategoriesCount(ts[1..], c);
    }
  }

  /** Each reported count is the number of tasks carrying that value. */
  lemma StatisticsCounts(ts: seq<Task>, key: string)
    ensures var st := TaskStatistics(ts);
      && CountOf(st.status, key) == Count(ts, WithStatus(key))
      && CountOf(st.priority, key) == Count(ts, WithPriority(key))
      && CountOf(st.category, key) == Count(ts, WithCategory(key))
  {
    GroupCountSpec(Statuses(ts));
    GroupCountSpec(Priorities(ts));
    GroupCountSpec(Categories(ts));
    StatusesCount(ts, key);
    PrioritiesCount(ts, key);
    CategoriesCount(ts, key);
  }
}
