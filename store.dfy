/** `DatabaseManager`: the two tables and their AUTOINCREMENT counters, held
    in place and changed by one method per SQL statement. */
module Store {
  import opened Schema
  import opened Sequences
  import opened Queries

  /** The ids `first`, `first + 1`, ..., `first + n - 1`: what a table issues
      when `n` rows are added after its counter stood at `first - 1`. */
  function IdsFrom(first: nat, n: nat): set<nat>
  {
    if n == 0 then {} else IdsFrom(first, n - 1) + {first + n - 1}
  }

  /** Issuing `a` ids and then `b` more issues the ids of one run of `a + b`. */
  lemma {:induction false} IdsFromSplit(first: nat, a: nat, b: nat)
    ensures IdsFrom(first, a + b) == IdsFrom(first, a) + IdsFrom(first + a, b)
  {
    if b > 0 {
      IdsFromSplit(first, a, b - 1);
    }
  }

  /** Advancing a counter that stood at `last` by `k`, to `next`, issues the
      `k` ids after `last`. */
  lemma IdsIssuedAfter(last: nat, k: nat, next: nat)
    requires next == last + k
    ensures IdsFrom(1, next) == IdsFrom(1, last) + IdsFrom(last + 1, k)
  {
    IdsFromSplit(1, last, k);
  }

  /** The ids issued from `first` on are exactly those from `first` below `first + n`. */
  lemma {:induction false} IdsFromRange(first: nat, n: nat, id: nat)
    ensures id in IdsFrom(first, n) <==> first <= id < first + n
  {
    if n > 0 {
      IdsFromRange(first, n - 1, id);
    }
  }

  class DatabaseManager {
    var tasks: seq<Task>
    var projects: seq<Project>
    /** The `sqlite_sequence` entries: the largest id each table has issued. */
    var taskSeq: nat
    var projectSeq: nat

    /** Every id the tasks table has ever issued, including those of deleted
        rows: AUTOINCREMENT hands out 1, 2, ... up to its counter. */
    ghost function TaskIdsIssued(): set<nat>
      reads this
    {
      IdsFrom(1, taskSeq)
    }

    /** Every id the projects table has ever issued. */
    ghost function ProjectIdsIssued(): set<nat>
      reads this
    {
      IdsFrom(1, projectSeq)
    }

    ghost predicate Valid()
      reads this
    {
      TasksKeyed(tasks, taskSeq) && ProjectsKeyed(projects, projectSeq)
    }

    /** `init_database` on a new database file: both tables empty. */
    constructor ()
      ensures Valid()
      ensures tasks == [] && projects == [] && taskSeq == 0 && projectSeq == 0
      ensures TaskIdsIssued() == {} && ProjectIdsIssued() == {}
    {
      tasks, projects := [], [];
      taskSeq, projectSeq := 0, 0;
    }

    /** `add_task`: appends a row with status 'todo', no completion time and
        the next id, which no row has ever carried before. Description and
        category default to the empty string, project and due date to NULL,
        priority to 'medium'. */
    method AddTask(now: int, title: string, description: Option<string> := Some(""),
                   category: Option<string> := Some(""), projectId: Option<int> := None,
                   dueDate: Option<string> := None, priority: string := Medium)
      returns (id: nat)
      requires Valid()
      modifies this
      ensures Valid()
      ensures id !in old(TaskIdsIssued()) && forall old_id :: old_id in old(TaskIdsIssued()) ==> old_id < id
      ensures TaskIdsIssued() == old(TaskIdsIssued()) + {id}
      ensures tasks == old(tasks) + [Task(id, title, description, category, projectId, Todo, priority, dueDate, now, None)]
      ensures id == old(taskSeq) + 1 && taskSeq == id
      ensures projects == old(projects) && projectSeq == old(projectSeq)
    {
      id := taskSeq + 1;
      forall old_id | old_id in TaskIdsIssued()
        ensures old_id < id
      {
        IdsFromRange(1, taskSeq, old_id);
      }
      tasks := tasks + [Task(id, title, description, category, projectId, Todo, priority, dueDate, now, None)];
      taskSeq := id;
    }

    /** `get_tasks`: the joined rows matching the truthy filters, newest first. */
    method GetTasks(status: Option<string>, projectId: Option<int>) returns (rows: seq<TaskRow>)
      ensures rows == ListTasks(tasks, projects, status, projectId)
      ensures SortedDesc(rows, TaskCreated)
      ensures forall row :: row in rows <==>
        row.task in tasks && row.projectName == ProjectName(projects, row.task.projectId)
        && MatchesFilters(row.task, status, projectId)
    {
      ListTasksSpec(tasks, projects, status, projectId);
      rows := ListTasks(tasks, projects, status, projectId);
    }

    /** `update_task_status`: an unknown id changes nothing. */
    method UpdateTaskStatus(id: int, status: string, now: int)
      requires Valid()
      modifies this
      ensures Valid()
      ensures tasks == SetStatus(old(tasks), id, status, now)
      ensures projects == old(projects) && taskSeq == old(taskSeq) && projectSeq == old(projectSeq)
      ensures TaskIdsIssued() == old(TaskIdsIssued()) && ProjectIdsIssued() == old(ProjectIdsIssued())
    {
      SetStatusKeepsKeys(tasks, id, status, now, taskSeq);
      var updated := SetStatus(tasks, id, status, now);
      assert forall i :: 0 <= i < |tasks| ==> updated[i].id == tasks[i].id;
      tasks := updated;
    }

    /** `delete_task`: an unknown id changes nothing; the counter stays, so the
        deleted id is never issued again. */
    method DeleteTask(id: int)
      requires Valid()
      modifies this
      ensures Valid()
      ensures tasks == RemoveTask(old(tasks), id)
      ensures projects == old(projects) && taskSeq == old(taskSeq) && projectSeq == old(projectSeq)
      ensures TaskIdsIssued() == old(TaskIdsIssued()) && ProjectIdsIssued() == old(ProjectIdsIssued())
    {
      RemoveTaskKeepsKeys(tasks, id, taskSeq);
      tasks := RemoveTask(tasks, id);
    }

    /** `add_project`: appends a row with status 'active' and the next id.
        The description defaults to the empty string, the due date to NULL. */
    method AddProject(now: int, name: string, description: Option<string> := Some(""),
                      dueDate: Option<string> := None)
      returns (id: nat)
      requires Valid()
      modifies this
      ensures Valid()
      ensures id !in old(ProjectIdsIssued()) && forall old_id :: old_id in old(ProjectIdsIssued()) ==> old_id < id
      ensures ProjectIdsIssued() == old(ProjectIdsIssued()) + {id}
      ensures projects == old(projects) + [Project(id, name, description, Active, now, dueDate)]
      ensures id == old(projectSeq) + 1 && projectSeq == id
      ensures tasks == old(tasks) && taskSeq == old(taskSeq)
    {
      id := projectSeq + 1;
      forall old_id | old_id in ProjectIdsIssued()
        ensures old_id < id
      {
        IdsFromRange(1, projectSeq, old_id);
      }
      projects := projects + [Project(id, name, description, Active, now, dueDate)];
      projectSeq := id;
    }

    /** `get_projects`: every project once, newest first, with its counts. */
    method GetProjects() returns (rows: seq<ProjectRow>)
      ensures rows == Rollup(tasks, projects)
      ensures |rows| == |projects| && SortedDesc(rows, ProjectCreated)
      ensures forall row :: row in rows ==>
        && row.project in projects
        && row.totalTasks == Count(tasks, InProject(row.project.id))
        && row.completedTasks == Count(tasks, CompletedInProject(row.project.id))
        && row.completedTasks <= row.totalTasks
      ensures forall p :: p in projects ==> ProjectCounts(tasks, p) in rows
    {
      RollupSpec(tasks, projects);
      rows := Rollup(tasks, projects);
    }

    /** `get_task_statistics`: the three GROUP BY counts. */
    method GetTaskStatistics() returns (st: Statistics)
      ensures st == TaskStatistics(tasks)
      ensures Total(st.status) == |tasks| && Total(st.priority) == |tasks|
      ensures Total(st.category) == Count(tasks, HasCategory) && CountOf(st.category, "") == 0
    {
      st := TaskStatistics(tasks);
    }
  }

  /** Ids stay fresh across deletes: a task added after another was deleted
      never gets the deleted task's id. */
  method IdsAreNotReused(db: DatabaseManager, title: string, now: int) returns (first: nat, second: nat)
    requires db.Valid()
    modifies db
    ensures db.Valid()
    ensures first < second
    ensures forall i :: 0 <= i < |db.tasks| ==> db.tasks[i].id != first
  {
    first := db.AddTask(now, title);
    db.DeleteTask(first);
    second := db.AddTask(now, title);
  }
}
