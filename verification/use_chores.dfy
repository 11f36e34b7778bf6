/** The persisted chore hook: loading the household's chores, adding a chore
    (with the creator as first assignee) and toggling completion with the
    recurrence rollover. The backend is an abstract store of rows; each
    write either takes effect or is rejected with a message, and which one
    happens is an input. The clock (`now`) and the id the store gives a new
    row (`freshId`) are inputs too. */
module ChoreStore {
  import opened Base
  import opened Calendar
  import opened Chores

  datatype WriteResult = Written | Rejected(message: string)

  /** One row of the `chore_assignments` table. */
  datatype AssignmentRow = AssignmentRow(choreId: string, userId: string)

  /** The backend: the `chores` and `chore_assignments` tables. */
  datatype Db = Db(chores: seq<ChoreRow>, assignments: seq<AssignmentRow>)

  /** What an operation leaves behind: the store and the `error` it returns
      (`None` for `{ error: null }`). */
  datatype Reply = Reply(db: Db, error: Option<string>)

  const ChoreNotFound: string := "Chore not found"
  const MissingUserOrHousehold: string := "Missing user or household"

  // ---- loading ----

  /** A row as the join query returns it: `chore_assignments` may be missing. */
  datatype FetchedRow = FetchedRow(row: ChoreRow, choreAssignments: Option<seq<Assignment>>)

  datatype FetchResult = FetchFailed | Fetched(data: Option<seq<FetchedRow>>)

  /** `data?.map(c => ({...c, assignments: c.chore_assignments || []})) || []`. */
  function Normalize(data: Option<seq<FetchedRow>>): (cs: seq<Chore>)
    ensures data.None? ==> cs == []
    ensures data.Some? ==> |cs| == |data.value|
    ensures data.Some? ==> forall i :: 0 <= i < |cs| ==>
              cs[i].row == data.value[i].row
              && cs[i].assignments == data.value[i].choreAssignments.GetOr([])
  {
    match data
    case None => []
    case Some(rows) => seq(|rows|, i requires 0 <= i < |rows| =>
                         Chore(rows[i].row, rows[i].choreAssignments.GetOr([])))
  }

  /** The list the hook holds after a (re)load: empty without a user or a
      household, unchanged when the query fails, otherwise the normalised
      rows. */
  function Reload(prev: seq<Chore>, signedIn: bool, household: Option<string>, fetch: FetchResult): (cs: seq<Chore>)
    ensures !signedIn || !HasHousehold(household) ==> cs == []
    ensures signedIn && HasHousehold(household) && fetch.FetchFailed? ==> cs == prev
    ensures signedIn && HasHousehold(household) && fetch.Fetched? ==> cs == Normalize(fetch.data)
  {
    if !signedIn || !HasHousehold(household) then []
    else match fetch
      case FetchFailed => prev
      case Fetched(data) => Normalize(data)
  }

  /** `!!householdId`: present and not the empty string. */
  predicate HasHousehold(household: Option<string>) {
    household.Some? && household.value != ""
  }

  // ---- adding ----

  /** `addChore(choreData)`: refuses without a user or household; otherwise
      inserts the caller's data with the current household and creator, and
      then assigns the chore to the current user. The assignment insert's
      outcome is not checked. */
  function AddChore(user: Option<string>, household: Option<string>, draft: ChoreRow, db: Db,
                    freshId: string, insert: WriteResult, assign: WriteResult): (r: Reply)
    ensures user.None? || !HasHousehold(household) ==> r == Reply(db, Some(MissingUserOrHousehold))
    ensures user.Some? && HasHousehold(household) && insert.Rejected? ==> r == Reply(db, Some(insert.message))
    ensures user.Some? && HasHousehold(household) && insert.Written? ==>
              && r.error.None?
              && |r.db.chores| == |db.chores| + 1
              && r.db.chores[..|db.chores|] == db.chores
              && var added := r.db.chores[|db.chores|];
                 added.id == freshId && added.householdId == household.value && added.createdBy == user.value
                 && added == draft.(id := added.id, householdId := added.householdId, createdBy := added.createdBy)
    ensures user.Some? && HasHousehold(household) && insert.Written? ==>
              r.db.assignments == db.assignments + (if assign.Written? then [AssignmentRow(freshId, user.value)] else [])
  {
    if user.None? || !HasHousehold(household) then Reply(db, Some(MissingUserOrHousehold))
    else match insert
      case Rejected(m) => Reply(db, Some(m))
      case Written =>
        var row := draft.(id := freshId, householdId := household.value, createdBy := user.value);
        var assignments := if assign.Written? then db.assignments + [AssignmentRow(freshId, user.value)] else db.assignments;
        Reply(Db(db.chores + [row], assignments), None)
  }

  // ---- toggling completion ----

  /** `chores.find(c => c.id === id)`. */
  function Find(cs: seq<Chore>, id: string): (r: Option<Chore>)
    ensures r.None? <==> forall i :: 0 <= i < |cs| ==> cs[i].row.id != id
    ensures r.Some? ==> exists i :: 0 <= i < |cs| && cs[i] == r.value
                          && cs[i].row.id == id && forall j :: 0 <= j < i ==> cs[j].row.id != id
  {
    if cs == [] then None
    else if cs[0].row.id == id then Some(cs[0])
    else
      Find(cs[1..], id)
  }

  /** The update `{ is_completed, completed_at }` applied to one row. */
  function SetCompletion(row: ChoreRow, completing: bool, now: Date): (r: ChoreRow)
    ensures CompletionConsistent(r)
    ensures r.isCompleted == completing
    ensures completing ==> r.completedAt == Some(now)
    ensures r.(isCompleted := row.isCompleted, completedAt := row.completedAt) == row
  {
    row.(isCompleted := completing, completedAt := if completing then Some(now) else None)
  }

  /** `update(...).eq('id', id)`: every row with that id gets the update. */
  function UpdateWhereId(rows: seq<ChoreRow>, id: string, completing: bool, now: Date): (rs: seq<ChoreRow>)
    ensures |rs| == |rows|
    ensures forall i :: 0 <= i < |rows| ==>
              rs[i] == if rows[i].id == id then SetCompletion(rows[i], completing, now) else rows[i]
  {
    seq(|rows|, i requires 0 <= i < |rows| =>
      if rows[i].id == id then SetCompletion(rows[i], completing, now) else rows[i])
  }

  /** The row inserted for the next occurrence: the chore's own data with a
      fresh id, a due date one period after now (not after the old due
      date), not completed and without `completed_at`.
      Assignments live in their own table and are not copied. */
  function Successor(row: ChoreRow, now: Date, freshId: string): (s: ChoreRow)
    requires Valid(now) && Repeats(row.recurring)
    ensures s.id == freshId && !s.isCompleted && s.completedAt.None? && CompletionConsistent(s)
    ensures s.dueDate == Some(NextDue(now, row.recurring.value))
    ensures s.dueDate.Some? && Valid(s.dueDate.value) && Before(now, s.dueDate.value)
    ensures s.title == row.title && s.description == row.description && s.category == row.category
    ensures s.icon == row.icon && s.hatePoints == row.hatePoints && s.priority == row.priority
    ensures s.recurring == row.recurring && s.householdId == row.householdId && s.createdBy == row.createdBy
  {
    ChoreRow(freshId, row.title, row.description, row.category, row.icon, row.hatePoints,
             row.priority, row.recurring, Some(NextDue(now, row.recurring.value)),
             false, None, row.householdId, row.createdBy)
  }

  /** Whether toggling `chore` spawns a successor: it is being completed
      (it was not completed before) and it repeats. */
  predicate Spawns(chore: ChoreRow) {
    !chore.isCompleted && Repeats(chore.recurring)
  }

  /** `toggleComplete(id)`. The chore is looked up in the hook's list;
      the completion update is written first and its failure is returned;
      after it succeeds a repeating chore that is being completed gets a
      successor, whose insert outcome is not checked. */
  function ToggleComplete(local: seq<Chore>, db: Db, id: string, now: Date, freshId: string,
                          update: WriteResult, insert: WriteResult): (r: Reply)
    requires Valid(now)
    ensures Find(local, id).None? ==> r == Reply(db, Some(ChoreNotFound))
    ensures Find(local, id).Some? && update.Rejected? ==> r == Reply(db, Some(update.message))
    ensures Find(local, id).Some? && update.Written? ==>
              var chore := Find(local, id).value.row;
              var spawned := Spawns(chore) && insert.Written?;
              && r.error.None?
              && r.db.assignments == db.assignments
              && |r.db.chores| == |db.chores| + (if spawned then 1 else 0)
              && r.db.chores[..|db.chores|] == UpdateWhereId(db.chores, id, !chore.isCompleted, now)
              && (spawned ==> r.db.chores[|db.chores|] == Successor(chore, now, freshId))
  {
    match Find(local, id)
    case None => Reply(db, Some(ChoreNotFound))
    case Some(c) =>
      var completing := !c.row.isCompleted;
      match update
      case Rejected(m) => Reply(db, Some(m))
      case Written =>
        var updated := UpdateWhereId(db.chores, id, completing, now);
        if completing && Repeats(c.row.recurring) && insert.Written? then
          Reply(db.(chores := updated + [Successor(c.row, now, freshId)]), None)
        else
          Reply(db.(chores := updated), None)
  }

  /** Completing and then un-completing a row restores it except that it
      ends up not completed and without `completed_at`; the completion time
      of the first step leaves no trace. */
  lemma CompleteThenUncomplete(row: ChoreRow, now: Date, later: Date)
    ensures SetCompletion(SetCompletion(row, true, now), false, later)
            == row.(isCompleted := false, completedAt := None)
  {
  }

  /** Un-completing never inserts a row and never removes one: a successor
      spawned earlier survives. Rows of other chores are untouched by any
      toggle. */
  lemma {:induction false} ToggleKeepsOtherRows(local: seq<Chore>, db: Db, id: string, now: Date,
                                                freshId: string, update: WriteResult, insert: WriteResult)
    requires Valid(now)
    ensures var r := ToggleComplete(local, db, id, now, freshId, update, insert);
            && |r.db.chores| >= |db.chores|
            && (forall i :: 0 <= i < |db.chores| && db.chores[i].id != id ==> r.db.chores[i] == db.chores[i])
            && (Find(local, id).Some? && Find(local, id).value.row.isCompleted ==> |r.db.chores| == |db.chores|)
  {
    var r := ToggleComplete(local, db, id, now, freshId, update, insert);
    if Find(local, id).Some? && update.Written? {
      var chore := Find(local, id).value.row;
      var updated := UpdateWhereId(db.chores, id, !chore.isCompleted, now);
      forall i | 0 <= i < |db.chores| && db.chores[i].id != id
        ensures r.db.chores[i] == db.chores[i]
      {
        assert r.db.chores[i] == r.db.chores[..|db.chores|][i] == updated[i];
      }
    }
  }
}
