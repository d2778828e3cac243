# Productivity tracker: store, filtering and transfer, modelled in Dafny

`Main.py` is a single-user task and project tracker. `DatabaseManager` keeps
two SQLite tables, `tasks` and `projects`, keyed by AUTOINCREMENT ids. On top of
it `ProductivityApp` shows a listing that can be narrowed by status and by a
search text. It draws charts of the aggregate counts and exports and imports the
data as JSON. `TaskDialog` and `ProjectDialog` validate what the user types.

This project models those parts:

- `schema.dfy` (module `Schema`): the rows of both tables, with SQL NULL as
  `Option`. It also holds the keying invariant: ids are strictly increasing and
  never above the table's AUTOINCREMENT counter.
- `sequences.dfy` (module `Sequences`): the list operations the SQL clauses
  amount to. `WHERE` is `Filter`, `COUNT` is `Count`, and `ORDER BY ... DESC`
  is a stable insertion sort. The module proves sortedness and permutation, and
  that filtering commutes with the sort.
- `queries.dfy` (module `Queries`): each SQL statement of `DatabaseManager` as
  a function over the table contents, with lemmas stating what each promises:
  - the LEFT JOIN listing with its truthy-only filters;
  - the status update that sets or clears the completion time;
  - the delete;
  - the per-project rollup of total and completed tasks;
  - the three GROUP BY counts.
- `store.dfy` (module `Store`): `DatabaseManager` as a class. It holds the two
  tables and their counters as fields, and each method is proved against the
  `Queries` function for its statement. The ids a table has issued are 1 up
  to its counter, as `sqlite_sequence` keeps them, so AUTOINCREMENT ids are
  fresh and never reused, even after a delete.
- `text.dfy` (module `Text`): the Python string operations the dialogs and the
  search rely on. These are `str.strip()`, `str.lower()` and the substring test.
- `dialogs.dfy` (module `Dialogs`): the checks `TaskDialog.save` and
  `ProjectDialog.save` make, and the loop that turns a chosen project name into
  an id.
- `app.dfy` (module `App`): `filter_tasks` and the chart labels.
- `transfer.dfy` (module `Transfer`): `export_data` and `import_data`, as a
  document value that is imported through the store's add methods.

Timestamps come from an abstract clock, passed to each operation as `now`. Only
their order matters: `ORDER BY created_date DESC` sorts on them. Rows with equal
timestamps stay in table order.

In two places a reader might expect a check that the code does not make. The
model follows the code in both:

- An update or delete of an id that no row carries is a silent no-op, as the
  SQL statements make it. It is not an error.
- The store accepts any title. Only the dialogs refuse an empty one.

In one place the model departs from the code. `import_data` does not rebuild
project references: it passes each exported `project_id` through unchanged,
and that links tasks to the wrong projects (see Findings). The code as written
is `Transfer.ImportedTasksAsWritten`, with the counterexample
`Transfer.AsWrittenImportMislinks`. `Transfer.ImportTasks`,
`Transfer.ImportData` and `Transfer.ExportInto` model the corrected import,
which relinks each reference to the new id of the project it was exported with.

## Model

| member | source | states |
|---|---|---|
| Store.DatabaseManager.constructor | Main.py:25-57 | a new database has two empty tables and both AUTOINCREMENT counters at 0 |
| Store.DatabaseManager.AddTask | Main.py:62-77 | appends one row with the given title, description, category, project, due date and priority (default 'medium'), status 'todo', no completion time and creation time `now`; the id is the counter plus one, greater than every id ever issued and different from all of them; projects and other rows are unchanged |
| Store.DatabaseManager.AddProject | Main.py:133-146 | appends one row with the given name, description (default '') and due date, status 'active' and the next id, greater than every project id ever issued; tasks are unchanged |
| Store.IdsFromRange | Main.py:33 | the run of ids issued from `first` holds exactly the ids from `first` below `first + n` |
| Store.IdsIssuedAfter | Main.py:33 | advancing an AUTOINCREMENT counter by `k` issues exactly the `k` ids after its old value, on top of those issued before |
| Store.IdsAreNotReused | Main.py:33 | a task added after another was deleted gets a larger id, and no remaining row carries the deleted id |
| Sequences.SortDescCorrect | Main.py:100 | `ORDER BY ... DESC` yields a non-increasing permutation of its input, of the same length |
| Sequences.SortDescMembership | Main.py:100 | sorting neither adds nor loses a row |
| Sequences.FilterSortDesc | Main.py:88-100 | a `WHERE` filter applied before `ORDER BY ... DESC` gives the same rows, in the same order, as the filter applied to the sorted rows |
| Queries.ProjectName | Main.py:84-86 | the LEFT JOIN yields NULL when the reference is NULL or no project has that id, and otherwise the name of a project carrying that id |
| Queries.ProjectNameOfId | Main.py:84-86 | with unique project ids, the joined name is that of the project carrying the id |
| Queries.ListTasks | Main.py:79-107 | the listing holds exactly the joined rows that pass the filters, each as often as it occurs (a permutation of them, so no more rows than tasks), ordered by creation time, newest first |
| Queries.FalsyFiltersAreAbsent | Main.py:92-98 | an empty status or a project id of 0 filters nothing: the listing is the unfiltered one |
| Queries.ListTasksSpec | Main.py:79-107 | the listing is a permutation of the joined rows that pass the filters. It is ordered by creation time, newest first. A row is listed iff its task is stored, it carries its project's name, its status equals a non-empty status filter, and its project equals a non-zero project filter |
| Queries.ListAllTasks | Main.py:79-107 | with no filter every stored task is listed, one row per task |
| Store.DatabaseManager.GetTasks | Main.py:79-107 | returns the listing, sorted newest first, with exactly the matching joined rows |
| Queries.SetStatus | Main.py:109-123 | the row with the id gets the new status, and a completion time (`now`) exactly when the status is 'completed'; every other column and every other row is unchanged |
| Queries.SetStatusMissingId | Main.py:116-120 | updating an id no row carries leaves the table as it was |
| Queries.SetStatusLastWins | Main.py:116-120 | of two updates to the same row only the later shows |
| Queries.CompleteThenReopen | Main.py:114-120 | completing a 'todo' task and moving it back to 'todo' restores the row, completion time cleared |
| Store.DatabaseManager.UpdateTaskStatus | Main.py:109-123 | the tasks table becomes `SetStatus` of the old one; projects, counters and issued ids are unchanged and the keying invariant is kept |
| Queries.RemoveTask | Main.py:125-131 | the remaining rows are exactly the stored rows whose id differs |
| Queries.RemoveTaskMissingId | Main.py:129 | deleting an id no row carries leaves the table as it was |
| Queries.RemoveTaskExact | Main.py:129 | with unique ids, deleting a stored id removes exactly that one row and keeps the order of the rest |
| Store.DatabaseManager.DeleteTask | Main.py:125-131 | the tasks table becomes `RemoveTask` of the old one; the counter stays, so a deleted id is never issued again; projects are unchanged |
| Queries.Rollup | Main.py:148-167 | the rollup is a permutation of the per-project count rows, one per project, ordered by creation time, newest first |
| Queries.RollupHasRow | Main.py:148-167 | every project's row, with its counts, appears in the rollup |
| Queries.RollupSpec | Main.py:148-167 | every project is listed once, newest first. Each row carries the number of tasks that reference the project and how many of those are completed, and the completed count never exceeds the total |
| Queries.CompletedAtMostTotal | Main.py:154-156 | a project's completed count is at most its total |
| Queries.EmptyProjectCounts | Main.py:154-158 | a project no task references reports 0 of 0 |
| Queries.DeleteLowersProjectTotal | Main.py:125-131 | deleting a task lowers its project's total by one and leaves every other project's total alone |
| Queries.AddRaisesProjectTotal | Main.py:62-77 | adding a task raises the total of the project it references by one, and no other |
| Store.DatabaseManager.GetProjects | Main.py:148-167 | returns the rollup: one row per project, newest first, with its counts and completed <= total |
| Queries.GroupCountSpec | Main.py:175-179 | a GROUP BY count has one row per distinct value, each with the number of occurrences of that value, and the counts add up to the number of rows |
| Queries.GroupCountCovers | Main.py:175-179 | every value that occurs has its row in the GROUP BY count |
| Queries.StatusesCount | Main.py:175-179 | the status column has one value per task, and each status occurs as often as tasks carry it |
| Queries.CategoriesCount | Main.py:183-188 | the category column under `WHERE category != ''` has one value per task with a non-empty, non-NULL category |
| Queries.TaskStatistics | Main.py:169-205 | the status counts and the priority counts each add up to the number of tasks. The category counts add up to the number of tasks with a non-empty category, and no group is reported for the empty category |
| Queries.StatisticsCounts | Main.py:169-205 | each reported count is the number of tasks carrying that status, priority or category |
| Store.DatabaseManager.GetTaskStatistics | Main.py:169-205 | returns the three counts, with the totals above |
| Text.Strip | Main.py:288 | `str.strip()` cuts a whitespace-only prefix and suffix off its input, leaving a slice that neither starts nor ends with whitespace, empty exactly when the input is all whitespace |
| Text.Lower | Main.py:744 | lowering keeps the length, leaves no upper-case ASCII letter and changes nothing else |
| Text.LowerIdempotent | Main.py:744 | lowering twice is lowering once; `App.SearchIgnoresCase` relies on it, since the search lowers text that may already be lowered |
| Text.Contains | Main.py:753-755 | `needle in hay` holds iff the needle occurs in the haystack at some index |
| Dialogs.FindProjectId | Main.py:308-314 | the lookup yields the id of the first listed project with the chosen name, or nothing when no project has it |
| Dialogs.FirstMatchUnique | Main.py:311-314 | two lookups of the same name agree |
| Dialogs.SaveTask | Main.py:286-325 | refused with "title required" iff the stripped title is empty. Refused with "invalid date" iff the title is present and a non-blank due date does not parse. The input is saved iff the stripped title is non-empty and the stripped due date is blank or parses; it saves the stripped fields, the due date or NULL when blank, and the project of the first matching name, or none for "None" |
| Dialogs.SaveProject | Main.py:385-409 | refused iff the stripped name is empty or a non-blank due date does not parse, so saved iff the stripped name is non-empty and the stripped due date is blank or parses; it saves the stripped name and description and the due date or NULL |
| App.FilterTasks | Main.py:741-757 | the result keeps the order of the status-filtered listing and is a subsequence of it. An empty search returns that listing unchanged. Otherwise a row stays iff the lowered search text occurs in its lowered title, description or category |
| App.TwoStageIsOneFilter | Main.py:741-757 | filtering by status in the store and then by search in memory gives the same rows, in the same order, as one filter by both followed by the listing's sort |
| App.SearchIgnoresCase | Main.py:744 | the case of the search text does not change the result |
| App.SelectedStatusOnly | Main.py:746-748 | a concrete status selector shows only stored tasks in that status |
| App.AllShowsEveryTask | Main.py:746-748 | "All" with an empty search shows every task |
| App.ChartLabel | Main.py:809 | a name of at most ten characters is its own label. A longer one becomes its first ten characters followed by "...". No label is longer than 13 |
| App.ChartLabels | Main.py:809 | labels are drawn for the first five listed projects only, each its project's label |
| Transfer.Export | Main.py:888-895 | the document lists one record per project and per task, in listing order, and every record of it has the name or title the import requires |
| Transfer.NamedPrefix | Main.py:917-923 | the project loop adds the leading records up to the first without a name |
| Transfer.TitledPrefix | Main.py:926-935 | the task loop adds the leading records up to the first without a title |
| Transfer.ImportedProjects | Main.py:917-923 | the k-th added project gets the k-th new id and the record's name |
| Transfer.ImportedTasks | Main.py:926-935 | corrected import: the k-th added task gets the k-th new id and the record's fields, with its project reference relinked |
| Transfer.ImportedTasksAsWritten | Main.py:926-935 | as written, each added task keeps the exported project id unchanged |
| Transfer.Relink | Main.py:926-935 | a reference becomes the new id of the first project record exported with that id, and NULL when no record carries it |
| Transfer.ImportProjects | Main.py:917-923 | the project loop appends exactly the projects of the named prefix, with consecutive new ids; the project counter advances by their number and exactly the ids in between are issued; tasks are unchanged |
| Transfer.ImportTasks | Main.py:926-935 | corrected import: the task loop appends exactly the tasks of the titled prefix, with references relinked; the task counter advances by their number and exactly the ids in between are issued; projects are unchanged |
| Transfer.ImportData | Main.py:904-940 | models the corrected import (the code as written is `Transfer.ImportedTasksAsWritten`). Projects come first, then tasks. Each counter advances by the number of rows added to its table. A record without a name or title ends the import, and the rows added before it stay. The result is true iff every record was added |
| Transfer.AsWrittenImportMislinks | Main.py:926-935 | the counterexample: after the code's import, the sample task is joined with project B, not A |
| Transfer.RelinkKeepsName | Main.py:926-935 | a relinked reference names, after import, the project it named before export |
| Transfer.ExportImportKeepsProjects | Main.py:879-940 | export then import keeps each task's title, description, category, priority, due date and project name, and resets it to 'todo' |
| Transfer.ImportedExport | Main.py:879-940 | an import given the export of a store adds every exported project and task, and each task keeps its project name |
| Transfer.ExportInto | Main.py:879-940 | exporting and importing into any store succeeds. The old rows of both tables stay in front, unchanged. After them come one project per exported project, with fresh ids and the record's fields, and one task per exported task, with a fresh id, its title, description, category, priority and due date, status 'todo', and the project it had. Each counter advances by the number exported |

## Left out

- The tkinter user interface is not modelled: windows, tree views, menus, message boxes and key bindings. Only the dialog checks and `filter_tasks` are.
- Chart drawing is not modelled. The progress percentage `completed / max(total, 1) * 100` is floating point and is not modelled either.
- The sqlite3 driver is not modelled: connections, commits and the SQL text itself. Each statement is its effect on the table contents.
- `CREATE TABLE IF NOT EXISTS` on an existing database file is not modelled. The model starts from empty tables.
- The wall clock is the parameter `now`: `CURRENT_TIMESTAMP` and `datetime.now()`. Timestamps are integers, and their ISO text form is not modelled.
- Ties in `ORDER BY created_date DESC`: SQLite leaves their order unspecified. The model keeps rows with equal timestamps in table order.
- `datetime.strptime(due_date, '%Y-%m-%d')` is the parameter `validDate`. Its exact leniency is not modelled.
- Text.Lower: lowers the ASCII letters only. Python's `str.lower()` also lowers non-ASCII letters, so searches with accented capitals are not modelled.
- The order of the GROUP BY rows is not modelled. Only the set of keys and the count of each key are.
- A NULL status or priority cannot occur in the model. The columns have defaults, and every write the model covers passes a value. The one way the code can store a NULL priority, an imported `"priority": null`, is left out below.
- The 64-bit limit of SQLite row ids is not modelled. Ids are unbounded.
- Referential integrity is not enforced, matching the code: a dangling `project_id` joins as NULL.
- The file dialogs, `json.dump`/`json.load`, the `exported_at` timestamp and the exception handling around export and import are not modelled. A failed record is modelled as ending the import.
- Exported task columns that the import never reads are not part of the document value: id, status, the created and completed dates, project name, counts.
- A JSON value of the wrong type (a title that is a number, `projects` that is not a list) is not modelled.
- A `priority` key holding `null` is not modelled. Only a missing key, which gives 'medium', and a text value are.
- Editing tasks and editing or deleting projects are stubs in the code. They have no behaviour to model.
- Transfer.ImportData: every imported row gets the same creation time `now`. The code stamps each row when its own INSERT runs.

## Findings

| source | as written | input that shows it | evidently intended | confidence | as-written member | corrected member |
|---|---|---|---|---|---|---|
| Main.py:926-935 | each imported task stores the exported `project_id` unchanged, but the imported projects receive new ids, issued in export order (newest first) | projects A (id 1, older) and B (id 2, newer), one task in A; export and import into an empty store: B gets id 1, A gets id 2, and the task, still carrying 1, is shown under B | an imported task stays with the project it was exported with (its reference is relinked to that project's new id, or NULL when the project was not exported) | medium, not executed | Transfer.AsWrittenImportMislinks | Transfer.ExportImportKeepsProjects |
