/** The checks `TaskDialog.save` and `ProjectDialog.save` make before a
    record reaches the store, and the dialog's project-name lookup. Whether a
    due date parses as `%Y-%m-%d` is decided by `datetime.strptime`, which is
    not part of this model: it is the parameter `validDate`. */
module Dialogs {
  import opened Schema
  import opened Text

  datatype DialogError = TitleRequired | NameRequired | InvalidDate

  datatype Outcome<T> = Saved(value: T) | Rejected(error: DialogError)

  /** The keyword arguments `TaskDialog.save` hands to `add_task`. */
  datatype TaskInput = TaskInput(
    title: string,
    description: string,
    category: string,
    priority: string,
    projectId: Option<int>,
    dueDate: Option<string>)

  /** The keyword arguments `ProjectDialog.save` hands to `add_project`. */
  datatype ProjectInput = ProjectInput(name: string, description: string, dueDate: Option<string>)

  /** The combo box entry that stands for "no project". */
  const NoProject := "None"

  /** `pid` is what the dialog's lookup loop yields for `name`: the id of the
      first listed project carrying that name, or nothing when none does. */
  ghost predicate FirstMatch(projects: seq<ProjectRow>, name: string, pid: Option<int>)
  {
    if pid.None? then forall j :: 0 <= j < |projects| ==> projects[j].project.name != name
    else exists k :: (0 <= k < |projects|
      && projects[k].project.name == name
      && pid.value == projects[k].project.id
      && forall j :: 0 <= j < k ==> projects[j].project.name != name)
  }

  /** The `for project in projects: ... break` loop of `TaskDialog.save`. */
  method FindProjectId(projects: seq<ProjectRow>, name: string) returns (pid: Option<int>)
    ensures FirstMatch(projects, name, pid)
  {
    pid := None;
    var i := 0;
    while i < |projects|
      invariant 0 <= i <= |projects|
      invariant forall j :: 0 <= j < i ==> projects[j].project.name != name
    {
      if projects[i].project.name == name {
        pid := Some(projects[i].project.id);
        break;
      }
      i := i + 1;
    }
  }

  /** Two lookups of the same name agree: the first match is unique. */
  lemma FirstMatchUnique(projects: seq<ProjectRow>, name: string, a: Option<int>, b: Option<int>)
    requires FirstMatch(projects, name, a) && FirstMatch(projects, name, b)
    ensures a == b
  {
    if a.Some? && b.Some? {
      var ka :| 0 <= ka < |projects| && projects[ka].project.name == name && a.value == projects[ka].project.id
        && forall j :: 0 <= j < ka ==> projects[j].project.name != name;
      var kb :| 0 <= kb < |projects| && projects[kb].project.name == name && b.value == projects[kb].project.id
        && forall j :: 0 <= j < kb ==> projects[j].project.name != name;
      assert ka == kb;
    }
  }

  /** `TaskDialog.save`: the stripped title must be non-empty and a non-blank
      due date must parse; the chosen project name becomes the first matching
      project's id, and "None" means no project. */
  method SaveTask(titleText: string, descriptionText: string, categoryText: string, priority: string,
                  projectName: string, dueText: string, projects: seq<ProjectRow>,
                  validDate: string -> bool)
    returns (out: Outcome<TaskInput>)
    ensures out == Rejected(TitleRequired) <==> Strip(titleText) == ""
    ensures out == Rejected(InvalidDate) <==>
      Strip(titleText) != "" && Strip(dueText) != "" && !validDate(Strip(dueText))
    ensures out.Saved? <==> Strip(titleText) != "" && (Strip(dueText) == "" || validDate(Strip(dueText)))
    ensures out.Saved? ==>
      && out.value.title == Strip(titleText) && out.value.title != ""
      && out.value.description == Strip(descriptionText)
      && out.value.category == Strip(categoryText)
      && out.value.priority == priority
      && (out.value.dueDate.None? <==> Strip(dueText) == "")
      && (out.value.dueDate.Some? ==> out.value.dueDate.value == Strip(dueText) && validDate(Strip(dueText)))
      && (projectName == NoProject ==> out.value.projectId.None?)
      && (projectName != NoProject ==> FirstMatch(projects, projectName, out.value.projectId))
  {
    var title := Strip(titleText);
    if title == "" {
      return Rejected(TitleRequired);
    }
    var description := Strip(descriptionText);
    var category := Strip(categoryText);
    var dueDate := Strip(dueText);
    if dueDate != "" && !validDate(dueDate) {
      return Rejected(InvalidDate);
    }
    var projectId: Option<int> := None;
    if projectName != NoProject {
      projectId := FindProjectId(projects, projectName);
    }
    out := Saved(TaskInput(title, description, category, priority, projectId,
                           if dueDate != "" then Some(dueDate) else None));
  }

  /** `ProjectDialog.save`: the stripped name must be non-empty and a
      non-blank due date must parse. */
  method SaveProject(nameText: string, descriptionText: string, dueText: string, validDate: string -> bool)
    returns (out: Outcome<ProjectInput>)
    ensures out == Rejected(NameRequired) <==> Strip(nameText) == ""
    ensures out == Rejected(InvalidDate) <==>
      Strip(nameText) != "" && Strip(dueText) != "" && !validDate(Strip(dueText))
    ensures out.Saved? <==> Strip(nameText) != "" && (Strip(dueText) == "" || validDate(Strip(dueText)))
    ensures out.Saved? ==>
      && out.value.name == Strip(nameText) && out.value.name != ""
      && out.value.description == Strip(descriptionText)
      && (out.value.dueDate.None? <==> Strip(dueText) == "")
      && (out.value.dueDate.Some? ==> out.value.dueDate.value == Strip(dueText) && validDate(Strip(dueText)))
  {
    var name := Strip(nameText);
    if name == "" {
      return Rejected(NameRequired);
    }
    var description := Strip(descriptionText);
    var dueDate := Strip(dueText);
    if dueDate != "" && !validDate(dueDate) {
      return Rejected(InvalidDate);
    }
    out := Saved(ProjectInput(name, description, if dueDate != "" then Some(dueDate) else None));
  }
}
