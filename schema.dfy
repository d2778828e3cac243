/** The rows of the two tables, `tasks` and `projects`, and the rows the
    listing queries return. SQL NULL is `None`; timestamps come from an
    abstract clock and are plain integers (later is larger). */
module Schema {

  datatype Option<T> = None | Some(value: T)

  function OrEmpty(s: Option<string>): string
  {
    if s.Some? then s.value else ""
  }

  /** Column defaults of the `tasks` and `projects` tables. */
  const Todo := "todo"
  const Completed := "completed"
  const Medium := "medium"
  const Active := "active"

  /** One row of `tasks`. `status` and `priority` are free text, as the
      TEXT columns are; the application only ever writes the values listed in
      its menus. */
  datatype Task = Task(
    id: nat,
    title: string,
    description: Option<string>,
    category: Option<string>,
    projectId: Option<int>,
    status: string,
    priority: string,
    dueDate: Option<string>,
    created: int,
    completed: Option<int>)

  /** One row of `projects`. */
  datatype Project = Project(
    id: nat,
    name: string,
    description: Option<string>,
    status: string,
    created: int,
    dueDate: Option<string>)

  /** A task joined with the name of its project (`p.name as project_name`). */
  datatype TaskRow = TaskRow(task: Task, projectName: Option<string>)

  /** A project with its two derived counts. */
  datatype ProjectRow = ProjectRow(project: Project, totalTasks: nat, completedTasks: nat)

  /** One `GROUP BY` result row: a key and how many rows carry it. */
  datatype Group = Group(key: string, count: nat)

  /** The three aggregates of `get_task_statistics`. */
  datatype Statistics = Statistics(status: seq<Group>, category: seq<Group>, priority: seq<Group>)

  /** The ids of a table are strictly increasing in storage order and none
      exceeds the last id the table's AUTOINCREMENT counter issued. */
  ghost predicate TasksKeyed(ts: seq<Task>, last: nat)
  {
    && (forall i :: 0 <= i < |ts| ==> 1 <= ts[i].id <= last)
    && (forall i, j :: 0 <= i < j < |ts| ==> ts[i].id < ts[j].id)
  }

  ghost predicate ProjectsKeyed(ps: seq<Project>, last: nat)
  {
    && (forall i :: 0 <= i < |ps| ==> 1 <= ps[i].id <= last)
    && (forall i, j :: 0 <= i < j < |ps| ==> ps[i].id < ps[j].id)
  }
}
