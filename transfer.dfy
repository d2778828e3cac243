/** `export_data` and `import_data` of `ProductivityApp`: the JSON document
    written from the two listings and read back through `add_project` and
    `add_task`. Reading and writing the file and the dialogs around it are not
    part of this model; a document is a value. */
module Transfer {
  import opened Schema
  import opened Sequences
  import opened Queries
  import opened Store

  /** One JSON value under a key read with `.get`: the key may be missing,
      hold `null`, or hold a value. */
  datatype Field<T> = Absent | Null | Value(value: T)

  function ToField<T>(o: Option<T>): Field<T>
  {
    if o.Some? then Value(o.value) else Null
  }

  /** `record.get(key)`: a missing key and `null` both give NULL. */
  function Get<T>(f: Field<T>): Option<T>
  {
    if f.Value? then Some(f.value) else None
  }

  /** `record.get(key, '')`: a missing key gives the empty string, `null`
      gives NULL. */
  function GetOrEmpty(f: Field<string>): Option<string>
  {
    match f
    case Absent => Some("")
    case Null => None
    case Value(v) => Some(v)
  }

  /** The keys of an exported project `import_data` reads back. `name` is
      `None` when the key is missing or `null`: `project['name']` then raises,
      or the NOT NULL column refuses the row. */
  datatype ProjectRecord = ProjectRecord(id: Field<int>, name: Option<string>, description: Field<string>, dueDate: Field<string>)

  /** The keys of an exported task `import_data` reads back; `title` as `name`
      above, `priority` is `None` when the key is missing. */
  datatype TaskRecord = TaskRecord(
    title: Option<string>,
    description: Field<string>,
    category: Field<string>,
    projectId: Field<int>,
    dueDate: Field<string>,
    priority: Option<string>)

  /** The document: `None` stands for a missing `projects` or `tasks` key. */
  datatype Document = Document(projects: Option<seq<ProjectRecord>>, tasks: Option<seq<TaskRecord>>)

  function Listed<T>(o: Option<seq<T>>): seq<T>
  {
    if o.Some? then o.value else []
  }

  // ---------------------------------------------------------------------
  // export_data
  // ---------------------------------------------------------------------

  function ExportProject(row: ProjectRow): ProjectRecord
  {
    ProjectRecord(Value(row.project.id), Some(row.project.name), ToField(row.project.description), ToField(row.project.dueDate))
  }

  function ExportTask(row: TaskRow): TaskRecord
  {
    TaskRecord(Some(row.task.title), ToField(row.task.description), ToField(row.task.category),
               ToField(row.task.projectId), ToField(row.task.dueDate), Some(row.task.priority))
  }

  /** `export_data`: `get_tasks()` and `get_projects()` in their listing order. */
  function Export(ts: seq<Task>, ps: seq<Project>): (d: Document)
    ensures d.projects.Some? && d.tasks.Some?
    ensures |d.projects.value| == |Rollup(ts, ps)| == |ps|
    ensures |d.tasks.value| == |ListTasks(ts, ps, None, None)| == |ts|
    ensures forall k :: 0 <= k < |d.projects.value| ==> d.projects.value[k] == ExportProject(Rollup(ts, ps)[k])
    ensures forall k :: 0 <= k < |d.tasks.value| ==> d.tasks.value[k] == ExportTask(ListTasks(ts, ps, None, None)[k])
    ensures NamedPrefix(d.projects.value) == |ps| && TitledPrefix(d.tasks.value) == |ts|
  {
    var projectRows := Rollup(ts, ps);
    var taskRows := ListTasks(ts, ps, None, None);
    RollupSpec(ts, ps);
    ListAllTasks(ts, ps);
    Document(Some(seq(|projectRows|, k requires 0 <= k < |projectRows| => ExportProject(projectRows[k]))),
             Some(seq(|taskRows|, k requires 0 <= k < |taskRows| => ExportTask(taskRows[k]))))
  }

  // ---------------------------------------------------------------------
  // import_data
  // ---------------------------------------------------------------------

  /** How many leading project records `import_data` adds before one without
      a name stops it. */
  function NamedPrefix(recs: seq<ProjectRecord>): (n: nat)
    ensures n <= |recs|
    ensures forall k :: 0 <= k < n ==> recs[k].name.Some?
    ensures n < |recs| ==> recs[n].name.None?
  {
    if recs == [] || recs[0].name.None? then 0
    else
      var n := NamedPrefix(recs[1..]);
      assert forall k :: 1 <= k < 1 + n ==> recs[k] == recs[1..][k - 1];
      1 + n
  }

  /** How many leading task records `import_data` adds before one without a
      title stops it. */
  function TitledPrefix(recs: seq<TaskRecord>): (n: nat)
    ensures n <= |recs|
    ensures forall k :: 0 <= k < n ==> recs[k].title.Some?
    ensures n < |recs| ==> recs[n].title.None?
  {
    if recs == [] || recs[0].title.None? then 0
    else
      var n := TitledPrefix(recs[1..]);
      assert forall k :: 1 <= k < 1 + n ==> recs[k] == recs[1..][k - 1];
      1 + n
  }

  /** The row `add_project` stores for a record. */
  function ImportProject(rec: ProjectRecord, id: nat, now: int): Project
    requires rec.name.Some?
  {
    Project(id, rec.name.value, GetOrEmpty(rec.description), Active, now, Get(rec.dueDate))
  }

  /** The rows the project loop stores, numbered from `firstId`. */
  function ImportedProjects(recs: seq<ProjectRecord>, firstId: nat, now: int): (r: seq<Project>)
    requires forall k :: 0 <= k < |recs| ==> recs[k].name.Some?
    ensures |r| == |recs|
    ensures forall k :: 0 <= k < |r| ==> r[k].id == firstId + k && r[k].name == recs[k].name.value
  {
    seq(|recs|, k requires 0 <= k < |recs| => ImportProject(recs[k], firstId + k, now))
  }

  /** The row `add_task` stores for a record, referencing `projectId`. Every
      imported task starts as 'todo' with no completion time. */
  function ImportTask(rec: TaskRecord, id: nat, projectId: Option<int>, now: int): Task
    requires rec.title.Some?
  {
    Task(id, rec.title.value, GetOrEmpty(rec.description), GetOrEmpty(rec.category), projectId,
         Todo, if rec.priority.Some? then rec.priority.value else Medium, Get(rec.dueDate), now, None)
  }

  /** The task rows as `import_data` stores them: the exported `project_id` is
      passed through unchanged, although the imported projects received new
      ids. */
  function ImportedTasksAsWritten(recs: seq<TaskRecord>, firstId: nat, now: int): (r: seq<Task>)
    requires forall k :: 0 <= k < |recs| ==> recs[k].title.Some?
    ensures |r| == |recs|
    ensures forall k :: 0 <= k < |r| ==> r[k].id == firstId + k && r[k].projectId == Get(recs[k].projectId)
  {
    seq(|recs|, k requires 0 <= k < |recs| => ImportTask(recs[k], firstId + k, Get(recs[k].projectId), now))
  }

  /** The index of the first project record exported with id `id`, or the
      number of records when none was. */
  function FirstWithId(precs: seq<ProjectRecord>, id: int): (k: nat)
    ensures k <= |precs|
    ensures forall j :: 0 <= j < k ==> precs[j].id != Value(id)
    ensures k < |precs| ==> precs[k].id == Value(id)
  {
    if precs == [] || precs[0].id == Value(id) then 0
    else
      var k := FirstWithId(precs[1..], id);
      assert forall j :: 1 <= j < 1 + k ==> precs[j] == precs[1..][j - 1];
      1 + k
  }

  /** The new id of the project an exported `project_id` referred to: the
      `k`-th project record received `firstId + k`, and the first record
      carrying the exported id decides. A reference to no imported project
      becomes NULL. */
  function Relink(precs: seq<ProjectRecord>, firstId: int, pid: Option<int>): (r: Option<int>)
    ensures r.None? <==> pid.None? || forall k :: 0 <= k < |precs| ==> precs[k].id != Value(pid.value)
    ensures r.Some? ==> && pid.Some? && 0 <= r.value - firstId < |precs|
                        && precs[r.value - firstId].id == Value(pid.value)
                        && forall j :: 0 <= j < r.value - firstId ==> precs[j].id != Value(pid.value)
  {
    if pid.None? then None
    else
      var k := FirstWithId(precs, pid.value);
      if k == |precs| then None else Some(firstId + k)
  }

  /** The task rows with each reference relinked to the imported projects,
      numbered from `firstProjectId`. */
  function ImportedTasks(recs: seq<TaskRecord>, precs: seq<ProjectRecord>, firstProjectId: nat, firstId: nat, now: int): (r: seq<Task>)
    requires forall k :: 0 <= k < |recs| ==> recs[k].title.Some?
    ensures |r| == |recs|
    ensures forall k :: 0 <= k < |r| ==>
      r[k].id == firstId + k && r[k] == ImportTask(recs[k], firstId + k, Relink(precs, firstProjectId, Get(recs[k].projectId)), now)
  {
    seq(|recs|, k requires 0 <= k < |recs| =>
      ImportTask(recs[k], firstId + k, Relink(precs, firstProjectId, Get(recs[k].projectId)), now))
  }

  lemma ImportedProjectsSnoc(recs: seq<ProjectRecord>, i: nat, firstId: nat, now: int)
    requires i < |recs| && forall k :: 0 <= k <= i ==> recs[k].name.Some?
    ensures ImportedProjects(recs[..i + 1], firstId, now)
         == ImportedProjects(recs[..i], firstId, now) + [ImportProject(recs[i], firstId + i, now)]
  {
    assert recs[..i + 1] == recs[..i] + [recs[i]];
  }

  lemma ImportedTasksSnoc(recs: seq<TaskRecord>, i: nat, precs: seq<ProjectRecord>, firstProjectId: nat, firstId: nat, now: int)
    requires i < |recs| && forall k :: 0 <= k <= i ==> recs[k].title.Some?
    ensures ImportedTasks(recs[..i + 1], precs, firstProjectId, firstId, now)
         == ImportedTasks(recs[..i], precs, firstProjectId, firstId, now)
            + [ImportTask(recs[i], firstId + i, Relink(precs, firstProjectId, Get(recs[i].projectId)), now)]
  {
    assert recs[..i + 1] == recs[..i] + [recs[i]];
  }

  /** The project loop of `import_data`: adds the records in order until one
      has no name; `n` is how many it added. */
  method ImportProjects(db: DatabaseManager, precs: seq<ProjectRecord>, now: int) returns (n: nat)
    requires db.Valid()
    modifies db
    ensures db.Valid()
    ensures n == NamedPrefix(precs)
    ensures db.projects == old(db.projects) + ImportedProjects(precs[..n], old(db.projectSeq) + 1, now)
    ensures db.projectSeq == old(db.projectSeq) + n && |db.projects| == old(|db.projects|) + n
    ensures db.ProjectIdsIssued() == old(db.ProjectIdsIssued()) + IdsFrom(old(db.projectSeq) + 1, n)
    ensures db.tasks == old(db.tasks) && db.taskSeq == old(db.taskSeq)
  {
    var firstId := db.projectSeq + 1;
    n := 0;
    while n < |precs| && precs[n].name.Some?
      invariant 0 <= n <= NamedPrefix(precs)
      invariant db.Valid()
      invariant db.projects == old(db.projects) + ImportedProjects(precs[..n], firstId, now)
      invariant db.projectSeq == old(db.projectSeq) + n && |db.projects| == old(|db.projects|) + n
      invariant db.tasks == old(db.tasks) && db.taskSeq == old(db.taskSeq)
    {
      var rec := precs[n];
      var id := db.AddProject(now, rec.name.value, GetOrEmpty(rec.description), Get(rec.dueDate));
      ImportedProjectsSnoc(precs, n, firstId, now);
      n := n + 1;
    }
    IdsIssuedAfter(old(db.projectSeq), n, db.projectSeq);
  }

  /** The task loop of `import_data`: adds the records in order until one has
      no title, relinking each reference to the projects numbered from
      `firstProjectId`; `n` is how many it added. */
  method ImportTasks(db: DatabaseManager, trecs: seq<TaskRecord>, precs: seq<ProjectRecord>,
                     firstProjectId: nat, now: int) returns (n: nat)
    requires db.Valid()
    modifies db
    ensures db.Valid()
    ensures n == TitledPrefix(trecs)
    ensures db.tasks == old(db.tasks) + ImportedTasks(trecs[..n], precs, firstProjectId, old(db.taskSeq) + 1, now)
    ensures db.taskSeq == old(db.taskSeq) + n && |db.tasks| == old(|db.tasks|) + n
    ensures db.TaskIdsIssued() == old(db.TaskIdsIssued()) + IdsFrom(old(db.taskSeq) + 1, n)
    ensures db.projects == old(db.projects) && db.projectSeq == old(db.projectSeq)
  {
    var firstId := db.taskSeq + 1;
    n := 0;
    while n < |trecs| && trecs[n].title.Some?
      invariant 0 <= n <= TitledPrefix(trecs)
      invariant db.Valid()
      invariant db.tasks == old(db.tasks) + ImportedTasks(trecs[..n], precs, firstProjectId, firstId, now)
      invariant db.taskSeq == old(db.taskSeq) + n && |db.tasks| == old(|db.tasks|) + n
      invariant db.projects == old(db.projects) && db.projectSeq == old(db.projectSeq)
    {
      var rec := trecs[n];
      var projectId := Relink(precs, firstProjectId, Get(rec.projectId));
      var id := db.AddTask(now, rec.title.value, GetOrEmpty(rec.description), GetOrEmpty(rec.category),
                           projectId, Get(rec.dueDate), if rec.priority.Some? then rec.priority.value else Medium);
      ImportedTasksSnoc(trecs, n, precs, firstProjectId, firstId, now);
      n := n + 1;
    }
    IdsIssuedAfter(old(db.taskSeq), n, db.taskSeq);
  }

  /** A table's AUTOINCREMENT counter advanced by exactly the number of rows
      added; the ids issued, 1 up to the counter, grew by the run after the old
      counter (`IdsIssuedAfter`). */
  ghost predicate CounterAdvanced(oldSeq: nat, oldRows: nat, newSeq: nat, newRows: nat)
  {
    oldRows <= newRows && newSeq == oldSeq + (newRows - oldRows)
  }

  /** The tables `import_data` leaves behind: the projects up to the first
      record without a name, each with the next id; then, unless a project
      record stopped it, the tasks up to the first record without a title,
      relinked to those projects; success exactly when nothing stopped it. */
  ghost predicate ImportOutcome(doc: Document, oldPs: seq<Project>, seqP: nat, oldTs: seq<Task>, firstTaskId: nat,
                                now: int, newPs: seq<Project>, newTs: seq<Task>, ok: bool)
  {
    var precs := Listed(doc.projects);
    var trecs := Listed(doc.tasks);
    var np := NamedPrefix(precs);
    var nt := TitledPrefix(trecs);
    && newPs == oldPs + ImportedProjects(precs[..np], seqP + 1, now)
    && (ok <==> np == |precs| && nt == |trecs|)
    && newTs == oldTs + if np < |precs| then [] else ImportedTasks(trecs[..nt], precs, seqP + 1, firstTaskId, now)
  }

  /** `import_data`: every project record, then every task record, each
      through the store's add method. A record without a name or title raises
      and ends the import there; the rows added before it stay. Task
      references are relinked to the new project ids. */
  method ImportData(db: DatabaseManager, doc: Document, now: int) returns (ok: bool)
    requires db.Valid()
    modifies db
    ensures db.Valid()
    ensures ImportOutcome(doc, old(db.projects), old(db.projectSeq), old(db.tasks), old(db.taskSeq) + 1, now,
                          db.projects, db.tasks, ok)
    ensures CounterAdvanced(old(db.projectSeq), old(|db.projects|), db.projectSeq, |db.projects|)
    ensures CounterAdvanced(old(db.taskSeq), old(|db.tasks|), db.taskSeq, |db.tasks|)
  {
    var precs := Listed(doc.projects);
    var trecs := Listed(doc.tasks);
    var firstProjectId := db.projectSeq + 1;
    var np := ImportProjects(db, precs, now);
    if np < |precs| {
      return false;
    }
    var nt := ImportTasks(db, trecs, precs, firstProjectId, now);
    ok := nt == |trecs|;
  }

  // ---------------------------------------------------------------------
  // Export followed by import
  // ---------------------------------------------------------------------

  /** Two projects, A created before B, and one task in A. */
  function SampleProjects(): seq<Project>
  {
    [Project(1, "A", None, Active, 1, None), Project(2, "B", None, Active, 2, None)]
  }

  function SampleTasks(): seq<Task>
  {
    [Task(1, "t", None, None, Some(1), Todo, Medium, None, 3, None)]
  }

  lemma SampleExport()
    ensures Rollup(SampleTasks(), SampleProjects())
         == [ProjectCounts(SampleTasks(), SampleProjects()[1]), ProjectCounts(SampleTasks(), SampleProjects()[0])]
  {
    var ts, ps := SampleTasks(), SampleProjects();
    var rows := seq(|ps|, i requires 0 <= i < |ps| => ProjectCounts(ts, ps[i]));
    assert rows == [ProjectCounts(ts, ps[0]), ProjectCounts(ts, ps[1])];
    assert rows[1..] == [ProjectCounts(ts, ps[1])];
    assert SortDesc(rows[1..], ProjectCreated) == [ProjectCounts(ts, ps[1])];
    assert Insert(rows[0], [rows[1]], ProjectCreated) == [rows[1]] + Insert(rows[0], [], ProjectCreated);
  }

  /** As written, `import_data` links the task of the sample to the wrong project:
      the export lists B before A, so a fresh store gives B the id 1 that the
      task still carries. */
  lemma AsWrittenImportMislinks()
    ensures var doc := Export(SampleTasks(), SampleProjects());
      && ProjectName(SampleProjects(), SampleTasks()[0].projectId) == Some("A")
      && ProjectName(ImportedProjects(doc.projects.value, 1, 4),
                     ImportedTasksAsWritten(doc.tasks.value, 1, 4)[0].projectId) == Some("B")
  {
    SampleExport();
    var doc := Export(SampleTasks(), SampleProjects());
    var newPs := ImportedProjects(doc.projects.value, 1, 4);
    assert ListTasks(SampleTasks(), SampleProjects(), None, None)[0].task == SampleTasks()[0] by {
      ListAllTasks(SampleTasks(), SampleProjects());
      ListTasksSpec(SampleTasks(), SampleProjects(), None, None);
    }
    assert newPs[0].id == 1 && newPs[0].name == "B";
  }

  lemma ImportedProjectsKeyed(target: seq<Project>, last: nat, recs: seq<ProjectRecord>, now: int)
    requires ProjectsKeyed(target, last)
    requires forall k :: 0 <= k < |recs| ==> recs[k].name.Some?
    ensures ProjectsKeyed(target + ImportedProjects(recs, last + 1, now), last + |recs|)
  {
  }

  /** The `j`-th imported project is the one the new id `seqP + 1 + j` names. */
  lemma ImportedName(target: seq<Project>, seqP: nat, precs: seq<ProjectRecord>, now: int, j: nat)
    requires ProjectsKeyed(target, seqP)
    requires forall k :: 0 <= k < |precs| ==> precs[k].name.Some?
    requires j < |precs|
    ensures ProjectName(target + ImportedProjects(precs, seqP + 1, now), Some(seqP + 1 + j)) == precs[j].name
  {
    ImportedProjectsKeyed(target, seqP, precs, now);
    var added := ImportedProjects(precs, seqP + 1, now);
    var newPs := target + added;
    assert newPs[|target| + j] == added[j];
    assert added[j].id == seqP + 1 + j && Some(added[j].name) == precs[j].name;
    ProjectNameOfId(newPs, seqP + |precs|, |target| + j);
  }

  /** The `j`-th exported project record carries the id and name of a stored
      project. */
  lemma ExportedName(ts: seq<Task>, ps: seq<Project>, lastP: nat, j: nat)
    requires ProjectsKeyed(ps, lastP)
    requires j < |Export(ts, ps).projects.value|
    ensures var rec := Export(ts, ps).projects.value[j];
      rec.id.Value? && ProjectName(ps, Some(rec.id.value)) == rec.name
  {
    var projectRows := Rollup(ts, ps);
    var p := projectRows[j].project;
    RollupSpec(ts, ps);
    assert projectRows[j] in projectRows;
    var m :| 0 <= m < |ps| && ps[m] == p;
    ProjectNameOfId(ps, lastP, m);
  }

  /** A reference the import relinks named, before the export, the project
      the relinked id names afterwards. */
  lemma RelinkedName(ts: seq<Task>, ps: seq<Project>, lastP: nat,
                     target: seq<Project>, seqP: nat, now: int, pid: Option<int>)
    requires ProjectsKeyed(ps, lastP) && ProjectsKeyed(target, seqP)
    requires Relink(Export(ts, ps).projects.value, seqP + 1, pid).Some?
    ensures var precs := Export(ts, ps).projects.value;
      ProjectName(target + ImportedProjects(precs, seqP + 1, now), Relink(precs, seqP + 1, pid)) == ProjectName(ps, pid)
  {
    var precs := Export(ts, ps).projects.value;
    var r := Relink(precs, seqP + 1, pid);
    var j := r.value - (seqP + 1);
    assert pid == Some(precs[j].id.value) && r == Some(seqP + 1 + j);
    ExportedName(ts, ps, lastP, j);
    ImportedName(target, seqP, precs, now, j);
  }

  /** A reference the import drops named no project before the export either. */
  lemma DroppedName(ts: seq<Task>, ps: seq<Project>, pid: Option<int>)
    requires Relink(Export(ts, ps).projects.value, 1, pid).None?
    ensures ProjectName(ps, pid) == None
  {
    var precs := Export(ts, ps).projects.value;
    var projectRows := Rollup(ts, ps);
    if pid.Some? {
      forall i | 0 <= i < |ps|
        ensures ps[i].id != pid.value
      {
        RollupHasRow(ts, ps, i);
        var j :| 0 <= j < |projectRows| && projectRows[j] == ProjectCounts(ts, ps[i]);
        assert precs[j].id == Value(ps[i].id as int);
      }
    }
  }

  lemma RelinkKeepsName(ts: seq<Task>, ps: seq<Project>, lastP: nat,
                        target: seq<Project>, seqP: nat, now: int, pid: Option<int>)
    requires ProjectsKeyed(ps, lastP) && ProjectsKeyed(target, seqP)
    ensures var precs := Export(ts, ps).projects.value;
      ProjectName(target + ImportedProjects(precs, seqP + 1, now), Relink(precs, seqP + 1, pid)) == ProjectName(ps, pid)
  {
    var precs := Export(ts, ps).projects.value;
    if Relink(precs, seqP + 1, pid).Some? {
      RelinkedName(ts, ps, lastP, target, seqP, now, pid);
    } else {
      assert Relink(precs, 1, pid).None?;
      DroppedName(ts, ps, pid);
    }
  }

  /** Exporting a store and importing the document into any store adds every
      project and every task, in listing order; each imported task keeps its
      title, description, category, priority and due date, starts as 'todo',
      and is joined with the name of the project it had before. */
  lemma ExportImportKeepsProjects(ts: seq<Task>, ps: seq<Project>, lastP: nat,
                                  target: seq<Project>, seqP: nat, firstTaskId: nat, now: int)
    requires ProjectsKeyed(ps, lastP) && ProjectsKeyed(target, seqP)
    ensures var doc := Export(ts, ps);
      var precs := doc.projects.value;
      var rows := ListTasks(ts, ps, None, None);
      var newPs := target + ImportedProjects(precs, seqP + 1, now);
      var newTs := ImportedTasks(doc.tasks.value, precs, seqP + 1, firstTaskId, now);
      forall k :: 0 <= k < |newTs| ==>
        && newTs[k].title == rows[k].task.title
        && newTs[k].description == rows[k].task.description
        && newTs[k].category == rows[k].task.category
        && newTs[k].priority == rows[k].task.priority
        && newTs[k].dueDate == rows[k].task.dueDate
        && newTs[k].status == Todo && newTs[k].completed.None?
        && ProjectName(newPs, newTs[k].projectId) == rows[k].projectName
  {
    var doc := Export(ts, ps);
    var newTs := ImportedTasks(doc.tasks.value, doc.projects.value, seqP + 1, firstTaskId, now);
    forall k | 0 <= k < |newTs| {
      ExportImportKeepsTask(ts, ps, lastP, target, seqP, firstTaskId, now, k);
    }
  }

  /** The `k`-th imported task is the `k`-th listed task, kept with its project. */
  lemma ExportImportKeepsTask(ts: seq<Task>, ps: seq<Project>, lastP: nat,
                              target: seq<Project>, seqP: nat, firstTaskId: nat, now: int, k: nat)
    requires ProjectsKeyed(ps, lastP) && ProjectsKeyed(target, seqP) && k < |ts|
    ensures var doc := Export(ts, ps);
      var precs := doc.projects.value;
      var rows := ListTasks(ts, ps, None, None);
      var t := ImportedTasks(doc.tasks.value, precs, seqP + 1, firstTaskId, now)[k];
      && t.title == rows[k].task.title
      && t.description == rows[k].task.description
      && t.category == rows[k].task.category
      && t.priority == rows[k].task.priority
      && t.dueDate == rows[k].task.dueDate
      && t.status == Todo && t.completed.None?
      && ProjectName(target + ImportedProjects(precs, seqP + 1, now), t.projectId) == rows[k].projectName
  {
    var doc := Export(ts, ps);
    var precs := doc.projects.value;
    var trecs := doc.tasks.value;
    var rows := ListTasks(ts, ps, None, None);
    var row := rows[k];
    assert trecs[k] == ExportTask(row);
    var pid := Relink(precs, seqP + 1, row.task.projectId);
    assert ImportedTasks(trecs, precs, seqP + 1, firstTaskId, now)[k] == ImportTask(trecs[k], firstTaskId + k, pid, now);
    assert row.projectName == ProjectName(ps, row.task.projectId) by {
      assert row in rows;
      ListTasksSpec(ts, ps, None, None);
    }
    RelinkKeepsName(ts, ps, lastP, target, seqP, now, row.task.projectId);
  }

  /** Exporting one store and importing the document into another (or the
      same) store succeeds, adds as many projects and tasks as were exported,
      and keeps every imported task with the project it had. Each counter
      advances by the number of rows exported, so the ids issued are the old
      ones and the run after them (`IdsIssuedAfter`). */
  method ExportInto(ts: seq<Task>, ps: seq<Project>, lastP: nat, db: DatabaseManager, now: int)
    returns (ok: bool)
    requires ProjectsKeyed(ps, lastP) && db.Valid()
    modifies db
    ensures db.Valid()
    ensures ok && HoldsExport(ts, ps, old(db.projects), old(db.tasks), db.projects, db.tasks)
    ensures ImportOutcome(Export(ts, ps), old(db.projects), old(db.projectSeq), old(db.tasks), old(db.taskSeq) + 1,
                          now, db.projects, db.tasks, ok)
    ensures db.projectSeq == old(db.projectSeq) + |ps|
    ensures db.taskSeq == old(db.taskSeq) + |ts|
  {
    ok := ImportData(db, Export(ts, ps), now);
    ImportedExport(ts, ps, lastP, old(db.projects), old(db.projectSeq), old(db.tasks), old(db.taskSeq) + 1,
                   now, db.projects, db.tasks, ok);
  }

  /** The tables `newPs` and `newTs` hold `oldPs` and `oldTs` followed by
      one new row per exported project and per exported task, and each new
      task is joined with the project name its exported row showed. */
  ghost predicate HoldsExport(ts: seq<Task>, ps: seq<Project>, oldPs: seq<Project>, oldTs: seq<Task>,
                              newPs: seq<Project>, newTs: seq<Task>)
  {
    && |newPs| == |oldPs| + |ps| && newPs[..|oldPs|] == oldPs
    && |newTs| == |oldTs| + |ts| && newTs[..|oldTs|] == oldTs
    && |ListTasks(ts, ps, None, None)| == |ts|
    && forall k :: 0 <= k < |ts| ==>
      ProjectName(newPs, newTs[|oldTs| + k].projectId) == ListTasks(ts, ps, None, None)[k].projectName
  }

  /** Importing an export of `ts` and `ps` succeeds and adds every exported
      project and task, each task joined with the project name it had. */
  lemma ImportedExport(ts: seq<Task>, ps: seq<Project>, lastP: nat, oldPs: seq<Project>, seqP: nat,
                       oldTs: seq<Task>, firstTaskId: nat, now: int, newPs: seq<Project>, newTs: seq<Task>,
                       ok: bool)
    requires ProjectsKeyed(ps, lastP) && ProjectsKeyed(oldPs, seqP)
    requires ImportOutcome(Export(ts, ps), oldPs, seqP, oldTs, firstTaskId, now, newPs, newTs, ok)
    ensures ok && HoldsExport(ts, ps, oldPs, oldTs, newPs, newTs)
  {
    var doc := Export(ts, ps);
    var precs, trecs := doc.projects.value, doc.tasks.value;
    assert precs[..|precs|] == precs && trecs[..|trecs|] == trecs;
    assert newPs == oldPs + ImportedProjects(precs, seqP + 1, now);
    assert newTs == oldTs + ImportedTasks(trecs, precs, seqP + 1, firstTaskId, now);
    assert newPs[..|oldPs|] == oldPs && newTs[..|oldTs|] == oldTs;
    ExportedIntoTables(ts, ps, lastP, oldPs, seqP, oldTs, firstTaskId, now, newPs, newTs);
  }

  /** The tables after importing an export of `ts` and `ps`: as many new rows
      as were exported, and each new task joined with its old project name. */
  lemma ExportedIntoTables(ts: seq<Task>, ps: seq<Project>, lastP: nat, oldPs: seq<Project>, seqP: nat,
                           oldTs: seq<Task>, firstTaskId: nat, now: int, newPs: seq<Project>, newTs: seq<Task>)
    requires ProjectsKeyed(ps, lastP) && ProjectsKeyed(oldPs, seqP)
    requires newPs == oldPs + ImportedProjects(Export(ts, ps).projects.value, seqP + 1, now)
    requires newTs == oldTs + ImportedTasks(Export(ts, ps).tasks.value, Export(ts, ps).projects.value,
                                            seqP + 1, firstTaskId, now)
    ensures |newPs| == |oldPs| + |ps|
    ensures |newTs| == |oldTs| + |ts| && |ListTasks(ts, ps, None, None)| == |ts|
    ensures forall k :: 0 <= k < |ts| ==>
      ProjectName(newPs, newTs[|oldTs| + k].projectId) == ListTasks(ts, ps, None, None)[k].projectName
  {
    var doc := Export(ts, ps);
    var added := ImportedTasks(doc.tasks.value, doc.projects.value, seqP + 1, firstTaskId, now);
    assert forall k :: 0 <= k < |ts| ==> newTs[|oldTs| + k] == added[k];
    ExportImportKeepsProjects(ts, ps, lastP, oldPs, seqP, firstTaskId, now);
  }
}
