/** The add/edit chore dialog. It holds a partial chore (`formData`) and a
    separately kept due date; submitting it hands the dashboard a patch
    that always carries the due date and an id. */
module Modal {
  import opened Base
  import opened Calendar
  import opened Chores
  import Dashboard

  /** The dialog's state: the form fields and the picked due date. */
  datatype ModalState = ModalState(form: Patch, dueDate: Option<Date>)

  /** The blank form: no id and no due-date key; empty title and
      description; the first known category with its icon; no assignees;
      to do, medium priority, no repeat. */
  const DefaultForm: Patch := Patch(
    Absent, Present(""), Present(Some("")), Absent, Present(DefaultCategory), Present(DefaultIcon),
    Present([]), Present(Todo), Present(Medium), Present(Some(NoRepeat)))

  /** The effect run when the dialog opens: an edited chore is copied into
      the form and its due date into the date picker; otherwise the form is
      reset. */
  function Open(editing: Option<Task>): (m: ModalState)
    ensures editing.Some? ==> forall base :: Merge(base, m.form) == editing.value
    ensures editing.Some? ==> m.dueDate == editing.value.dueDate
    ensures editing.None? ==> m.form.id.Absent? && m.form.dueDate.Absent? && m.dueDate.None?
    ensures editing.None? ==> m.form.assignees == Present([])
  {
    match editing
    case Some(t) => MergeLaws(t, t); ModalState(PatchOf(t), t.dueDate)
    case None => ModalState(DefaultForm, None)
  }

  // ---- field edits ----

  function SetTitle(m: ModalState, title: string): (r: ModalState)
    ensures r.form.title == Present(title)
    ensures r.(form := r.form.(title := m.form.title)) == m
  {
    m.(form := m.form.(title := Present(title)))
  }

  function SetDescription(m: ModalState, description: string): (r: ModalState)
    ensures r.form.description == Present(Some(description))
    ensures r.(form := r.form.(description := m.form.description)) == m
  {
    m.(form := m.form.(description := Present(Some(description))))
  }

  function SetPriority(m: ModalState, p: Priority): (r: ModalState)
    ensures r.form.priority == Present(p)
    ensures r.(form := r.form.(priority := m.form.priority)) == m
  {
    m.(form := m.form.(priority := Present(p)))
  }

  function SetRecurring(m: ModalState, rec: Recurrence): (r: ModalState)
    ensures r.form.recurring == Present(Some(rec))
    ensures r.(form := r.form.(recurring := m.form.recurring)) == m
  {
    m.(form := m.form.(recurring := Present(Some(rec))))
  }

  /** The calendar's `onSelect`: a day, or `undefined` when the picked day
      is clicked again. Only the date picker changes, never the form. */
  function PickDate(m: ModalState, d: Option<Date>): (r: ModalState)
    ensures r.dueDate == d && r.form == m.form
  {
    m.(dueDate := d)
  }

  /** `handleCategoryChange(category)`: the category and the table's icon
      for it, falling back to the broom for a category the table does not
      know. */
  function ChangeCategory(m: ModalState, category: string): (r: ModalState)
    ensures r.form.category == Present(category)
    ensures category in CategoryNames() ==> r.form.icon == Present(TableIcon(category).value)
    ensures category !in CategoryNames() ==> r.form.icon == Present(DefaultIcon)
    ensures r.(form := r.form.(category := m.form.category, icon := m.form.icon)) == m
  {
    var icon := TableIcon(category).GetOr(DefaultIcon);
    m.(form := m.form.(category := Present(category), icon := Present(if icon != "" then icon else DefaultIcon)))
  }

  /** Every known category keeps its own icon when chosen in the dialog. */
  lemma ChangeCategoryIcon(m: ModalState, k: nat)
    requires k < |CategoryTable|
    ensures ChangeCategory(m, CategoryTable[k].0).form.icon == Present(CategoryTable[k].1)
  {
    assert CategoryNames()[k] == CategoryTable[k].0;
  }

  // ---- submitting ----

  /** `formData.title?.trim()` is truthy: the title key is present and not
      blank. */
  predicate HasTitle(form: Patch) {
    form.title.Present? && Trim(form.title.value) != ""
  }

  /** `handleSubmit`: nothing is sent while the title is missing or blank;
      otherwise the form is sent with the picked due date (even when none
      is picked) and an id, the edited chore's or a fresh one. The title is
      sent as typed, untrimmed. */
  function Submit(m: ModalState, editing: Option<Task>, freshId: string): (r: Option<Patch>)
    ensures r.Some? <==> HasTitle(m.form)
    ensures r.Some? ==> r.value.dueDate == Present(m.dueDate)
    ensures r.Some? ==> r.value.id == Present(if editing.Some? then editing.value.id else freshId)
    ensures r.Some? ==> r.value.(id := m.form.id, dueDate := m.form.dueDate) == m.form
  {
    if !HasTitle(m.form) then None
    else
      var id := match editing
        case Some(t) => t.id
        case None => freshId;
      Some(m.form.(dueDate := Present(m.dueDate), id := Present(id)))
  }

  // ---- the dialog and the dashboard together ----

  /** Adding a chore through a fresh dialog with only a title typed appends
      a chore with the dialog's defaults. The dialog always sends an empty
      assignee list, so the dashboard's fall-back to the current user never
      applies; the dashboard's own fresh id replaces the dialog's. */
  lemma AddWithDefaults(tasks: seq<Task>, user: Dashboard.User, title: string, modalId: string, boardId: string)
    requires Trim(title) != ""
    ensures var p := Submit(SetTitle(Open(None), title), None, modalId);
            p.Some?
            && Dashboard.SaveChore(tasks, None, p.value, user, boardId)
               == tasks + [Task(boardId, title, Some(""), None, DefaultCategory, DefaultIcon, [], Todo, Medium, Some(NoRepeat))]
  {
  }

  /** A blank title sends nothing, so the chore list cannot change. */
  lemma BlankTitleSendsNothing(m: ModalState, editing: Option<Task>, freshId: string, title: string)
    requires AllSpace(title)
    ensures Submit(SetTitle(m, title), editing, freshId).None?
  {
  }

  /** Opening an existing chore and saving it without edits leaves every
      chore as it was, provided ids are unique. */
  lemma EditUnchangedIsIdentity(tasks: seq<Task>, k: nat, user: Dashboard.User, freshId: string)
    requires k < |tasks| && Dashboard.UniqueIds(tasks)
    requires Trim(tasks[k].title) != ""
    ensures var p := Submit(Open(Some(tasks[k])), Some(tasks[k]), freshId);
            p == Some(PatchOf(tasks[k]))
            && Dashboard.SaveChore(tasks, Some(tasks[k]), p.value, user, freshId) == tasks
  {
    Dashboard.SaveUnchangedIsIdentity(tasks, k, user, freshId);
  }

  /** Editing one chore's title changes that chore's title and nothing
      else in the list. */
  lemma EditTitleChangesOnlyThatChore(tasks: seq<Task>, k: nat, title: string, user: Dashboard.User, freshId: string)
    requires k < |tasks| && Dashboard.UniqueIds(tasks)
    requires Trim(title) != ""
    ensures var p := Submit(SetTitle(Open(Some(tasks[k])), title), Some(tasks[k]), freshId);
            p.Some?
            && Dashboard.SaveChore(tasks, Some(tasks[k]), p.value, user, freshId) == tasks[k := tasks[k].(title := title)]
  {
    var t := tasks[k];
    var p := Submit(SetTitle(Open(Some(t)), title), Some(t), freshId);
    assert p.value == PatchOf(t.(title := title));
    var r := Dashboard.SaveChore(tasks, Some(t), p.value, user, freshId);
    forall i | 0 <= i < |tasks| ensures r[i] == tasks[k := t.(title := title)][i] {
      if i != k {
        assert tasks[i].id != t.id;
      }
    }
  }
}
