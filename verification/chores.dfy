/** The two chore shapes of the application and the vocabulary they share.

    - `Task` is the status-based shape (`status: todo | in-progress | done`)
      the in-memory dashboard, the chore modal and the chore card use.
    - `Chore` is the completion-based shape the persisted hook fetches: a
      `ChoreRow` of the `chores` table joined with its assignments. The board,
      the board card and the statistics read this shape.

    Categories are free strings in both shapes; six of them are known. */
module Chores {
  import opened Base
  import opened Calendar

  datatype Recurrence = NoRepeat | Daily | Weekly | Monthly
  datatype Priority = Low | Medium | High
  datatype Status = Todo | InProgress | Done

  /** The recurrence as the application writes it: 'none', 'daily',
      'weekly' or 'monthly'. */
  function RecurrenceText(r: Recurrence): (s: string)
    ensures s == "none" <==> r == NoRepeat
  {
    match r
    case NoRepeat => "none"
    case Daily => "daily"
    case Weekly => "weekly"
    case Monthly => "monthly"
  }

  /** Each recurrence has its own text. */
  lemma RecurrenceTextInjective(r: Recurrence, q: Recurrence)
    ensures RecurrenceText(r) == RecurrenceText(q) <==> r == q
  {
  }

  /** `chore.recurring && chore.recurring !== 'none'`: the recurrence is
      set and is an actual period. */
  function Repeats(rec: Option<Recurrence>): (b: bool)
    ensures b <==> rec.Some? && RecurrenceText(rec.value) != "none"
  {
    rec.Some? && rec.value != NoRepeat
  }

  /** The repeat badge both chore cards draw next to the date: the
      recurrence's own text, present only for a repeating chore. */
  function RepeatBadge(rec: Option<Recurrence>): (r: Option<string>)
    ensures r.Some? <==> Repeats(rec)
    ensures r.Some? ==> rec.Some? && r.value == RecurrenceText(rec.value) && r.value != "none"
  {
    if Repeats(rec) then Some(RecurrenceText(rec.value)) else None
  }

  /** The successor's due date: `new Date()` advanced by one period with
      `setDate(getDate() + 1)`, `setDate(getDate() + 7)` or
      `setMonth(getMonth() + 1)`. The `switch` has no branch for `none`, so
      that value leaves the date at `now`. */
  function NextDue(now: Date, r: Recurrence): (d: Date)
    requires Valid(now)
    ensures Valid(d)
    ensures r != NoRepeat <==> Before(now, d)
    ensures r == Daily ==> d == NextDay(now)
    ensures r == Monthly ==> d == AddDays(FirstOfNextMonth(now), now.day - 1)
  {
    match r
    case NoRepeat => now
    case Daily => AddDays(now, 1)
    case Weekly => AddDays(now, 7)
    case Monthly => AddMonthIsDayOffset(now); AddMonth(now)
  }

  /** A week is seven single days. */
  lemma {:induction false} WeeklyIsSevenDailySteps(now: Date)
    requires Valid(now)
    ensures NextDue(now, Weekly)
            == NextDue(NextDue(NextDue(NextDue(NextDue(NextDue(NextDue(now, Daily), Daily), Daily), Daily), Daily), Daily), Daily)
  {
  }

  // ---- status-based shape (the dashboard's `Chore`) ----

  datatype Assignee = Assignee(id: string, name: string, avatar: Option<string>)

  datatype Task = Task(
    id: string,
    title: string,
    description: Option<string>,
    dueDate: Option<Date>,
    category: string,
    icon: string,
    assignees: seq<Assignee>,
    status: Status,
    priority: Priority,
    recurring: Option<Recurrence>)

  /** `Partial<Chore>` as the modal builds it and the dashboard spreads it:
      every key may be absent; a present optional key may hold `undefined`. */
  datatype Patch = Patch(
    id: Field<string>,
    title: Field<string>,
    description: Field<Option<string>>,
    dueDate: Field<Option<Date>>,
    category: Field<string>,
    icon: Field<string>,
    assignees: Field<seq<Assignee>>,
    status: Field<Status>,
    priority: Field<Priority>,
    recurring: Field<Option<Recurrence>>)

  /** The patch that holds every field of `t`. */
  function PatchOf(t: Task): (p: Patch)
    ensures p.id.Present? && p.title.Present? && p.description.Present? && p.dueDate.Present?
    ensures p.category.Present? && p.icon.Present? && p.assignees.Present?
    ensures p.status.Present? && p.priority.Present? && p.recurring.Present?
  {
    Patch(Present(t.id), Present(t.title), Present(t.description), Present(t.dueDate),
          Present(t.category), Present(t.icon), Present(t.assignees), Present(t.status),
          Present(t.priority), Present(t.recurring))
  }

  /** `{...t, ...p}`: every key present in `p` overrides `t`. */
  function Merge(t: Task, p: Patch): Task {
    Task(p.id.Or(t.id), p.title.Or(t.title), p.description.Or(t.description),
         p.dueDate.Or(t.dueDate), p.category.Or(t.category), p.icon.Or(t.icon),
         p.assignees.Or(t.assignees), p.status.Or(t.status), p.priority.Or(t.priority),
         p.recurring.Or(t.recurring))
  }

  /** Spreading a patch that carries all of `u` yields `u`, whatever it is
      spread over; spreading an empty patch changes nothing. */
  lemma MergeLaws(t: Task, u: Task)
    ensures Merge(t, PatchOf(u)) == u
    ensures Merge(t, Patch(Absent, Absent, Absent, Absent, Absent, Absent, Absent, Absent, Absent, Absent)) == t
    ensures Merge(Merge(t, PatchOf(u)), PatchOf(u)) == Merge(t, PatchOf(u))
  {
  }

  // ---- completion-based shape (the persisted `Chore`) ----

  datatype Profile = Profile(name: string, avatarUrl: Option<string>)
  datatype Assignment = Assignment(userId: string, profile: Profile)

  /** One row of the `chores` table. */
  datatype ChoreRow = ChoreRow(
    id: string,
    title: string,
    description: Option<string>,
    category: string,
    icon: string,
    hatePoints: int,
    priority: Priority,
    recurring: Option<Recurrence>,
    dueDate: Option<Date>,
    isCompleted: bool,
    completedAt: Option<Date>,
    householdId: string,
    createdBy: string)

  /** A fetched chore: its row and its assignments. */
  datatype Chore = Chore(row: ChoreRow, assignments: seq<Assignment>)

  /** `completedAt` is set exactly when the chore is completed. */
  predicate CompletionConsistent(r: ChoreRow) {
    r.completedAt.Some? <==> r.isCompleted
  }

  // ---- categories ----

  /** The known categories with their icons, in display order. */
  const CategoryTable: seq<(string, string)> := [
    ("Cleaning", "🧹"), ("Cooking", "🍳"), ("Shopping", "🛒"),
    ("Maintenance", "🔧"), ("Outdoor", "🌱"), ("Pet Care", "🐕")]

  const DefaultCategory: string := "Cleaning"
  const DefaultIcon: string := "🧹"

  /** The category names of the table, in order. */
  function CategoryNames(): (names: seq<string>)
    ensures |names| == |CategoryTable| == 6
    ensures forall i :: 0 <= i < 6 ==> names[i] == CategoryTable[i].0
    ensures NoDup(names)
  {
    ["Cleaning", "Cooking", "Shopping", "Maintenance", "Outdoor", "Pet Care"]
  }

  /** `categories.find(c => c.name === name)?.icon`. */
  function TableIcon(name: string): (icon: Option<string>)
    ensures icon.Some? <==> name in CategoryNames()
    ensures forall i :: 0 <= i < 6 && CategoryTable[i].0 == name ==> icon == Some(CategoryTable[i].1)
  {
    FindIcon(CategoryTable, name)
  }

  function FindIcon(table: seq<(string, string)>, name: string): (icon: Option<string>)
    ensures icon.Some? <==> exists i :: 0 <= i < |table| && table[i].0 == name
    ensures icon.Some? ==> exists i :: 0 <= i < |table| && table[i] == (name, icon.value)
    ensures forall i :: (0 <= i < |table| && table[i].0 == name
                         && (forall j :: 0 <= j < i ==> table[j].0 != name)) ==> icon == Some(table[i].1)
  {
    if table == [] then None
    else if table[0].0 == name then Some(table[0].1)
    else FindIcon(table[1..], name)
  }
}
