/** The in-memory dashboard's list updates over status-based chores: a
    status change (with the recurrence rollover), saving the modal's data
    (edit in place or append with defaults) and the category filter list.
    The delayed append of a successor is modelled as immediate. */
module Dashboard {
  import opened Base
  import opened Calendar
  import opened Chores

  datatype User = User(id: string, name: string, email: string)

  // ---- status change ----

  /** The next occurrence of a repeating chore: a copy of it with a fresh
      id, status `todo` and a due date one period after now, whatever the
      old due date was. */
  function Successor(t: Task, now: Date, freshId: string): (s: Task)
    requires Valid(now) && Repeats(t.recurring)
    ensures s.(id := t.id, status := t.status, dueDate := t.dueDate) == t
    ensures s.id == freshId && s.status == Todo
    ensures s.dueDate == Some(NextDue(now, t.recurring.value))
    ensures s.dueDate.Some? && Valid(s.dueDate.value) && Before(now, s.dueDate.value)
  {
    t.(id := freshId, status := Todo, dueDate := Some(NextDue(now, t.recurring.value)))
  }

  /** Whether setting `status` on `t` schedules a successor. The chore's
      previous status is not consulted. */
  predicate SpawnsOn(t: Task, status: Status) {
    status == Done && Repeats(t.recurring)
  }

  /** Whether a status change of chore `id` to `status` schedules a
      successor for `t`. */
  predicate Qualifies(t: Task, id: string, status: Status) {
    t.id == id && SpawnsOn(t, status)
  }

  /** `x` is the successor of a qualifying chore. */
  predicate SuccessorOfQualifying(tasks: seq<Task>, id: string, status: Status, now: Date, freshId: string, x: Task)
    requires Valid(now)
  {
    exists i :: 0 <= i < |tasks| && Qualifies(tasks[i], id, status) && x == Successor(tasks[i], now, freshId)
  }

  /** Every element of `r` is the successor of a qualifying chore. */
  predicate EachFromQualifying(tasks: seq<Task>, id: string, status: Status, now: Date, freshId: string, r: seq<Task>)
    requires Valid(now)
  {
    forall j :: 0 <= j < |r| ==> SuccessorOfQualifying(tasks, id, status, now, freshId, r[j])
  }

  /** Every qualifying chore's successor is in `r`. */
  predicate EachQualifyingScheduled(tasks: seq<Task>, id: string, status: Status, now: Date, freshId: string, r: seq<Task>)
    requires Valid(now)
  {
    forall i :: 0 <= i < |tasks| && Qualifies(tasks[i], id, status) ==> Successor(tasks[i], now, freshId) in r
  }

  /** The successors the status change schedules, one per chore with the
      id, in list order. */
  function Spawned(tasks: seq<Task>, id: string, status: Status, now: Date, freshId: string): (r: seq<Task>)
    requires Valid(now)
    ensures |r| <= |tasks|
    ensures |r| == 0 <==> forall i :: 0 <= i < |tasks| ==> !Qualifies(tasks[i], id, status)
    ensures EachFromQualifying(tasks, id, status, now, freshId, r)
    ensures EachQualifyingScheduled(tasks, id, status, now, freshId, r)
  {
    if tasks == [] then []
    else
      var rest := Spawned(tasks[1..], id, status, now, freshId);
      var r := if Qualifies(tasks[0], id, status) then [Successor(tasks[0], now, freshId)] + rest else rest;
      FromQualifyingStep(tasks, id, status, now, freshId, rest);
      QualifyingScheduledStep(tasks, id, status, now, freshId, rest);
      r
  }

  /** The soundness half of one step of `Spawned`. */
  lemma FromQualifyingStep(tasks: seq<Task>, id: string, status: Status, now: Date, freshId: string, rest: seq<Task>)
    requires Valid(now) && tasks != []
    requires EachFromQualifying(tasks[1..], id, status, now, freshId, rest)
    ensures EachFromQualifying(tasks, id, status, now, freshId,
              if Qualifies(tasks[0], id, status) then [Successor(tasks[0], now, freshId)] + rest else rest)
  {
    forall j | 0 <= j < |rest| ensures SuccessorOfQualifying(tasks, id, status, now, freshId, rest[j]) {
      assert SuccessorOfQualifying(tasks[1..], id, status, now, freshId, rest[j]);
      var i :| 0 <= i < |tasks[1..]| && Qualifies(tasks[1..][i], id, status)
               && rest[j] == Successor(tasks[1..][i], now, freshId);
      assert tasks[i + 1] == tasks[1..][i];
      assert 0 <= i + 1 < |tasks| && Qualifies(tasks[i + 1], id, status) && rest[j] == Successor(tasks[i + 1], now, freshId);
    }
    if Qualifies(tasks[0], id, status) {
      var r := [Successor(tasks[0], now, freshId)] + rest;
      forall j | 0 <= j < |r| ensures SuccessorOfQualifying(tasks, id, status, now, freshId, r[j]) {
        if j == 0 {
          assert 0 <= 0 < |tasks| && Qualifies(tasks[0], id, status) && r[0] == Successor(tasks[0], now, freshId);
        } else {
          assert r[j] == rest[j - 1];
        }
      }
    }
  }

  /** The completeness half of one step of `Spawned`. */
  lemma QualifyingScheduledStep(tasks: seq<Task>, id: string, status: Status, now: Date, freshId: string, rest: seq<Task>)
    requires Valid(now) && tasks != []
    requires EachQualifyingScheduled(tasks[1..], id, status, now, freshId, rest)
    ensures EachQualifyingScheduled(tasks, id, status, now, freshId,
              if Qualifies(tasks[0], id, status) then [Successor(tasks[0], now, freshId)] + rest else rest)
  {
    forall i | 1 <= i < |tasks| && Qualifies(tasks[i], id, status)
      ensures Successor(tasks[i], now, freshId) in rest
    {
      assert tasks[1..][i - 1] == tasks[i];
    }
    if Qualifies(tasks[0], id, status) {
      var r := [Successor(tasks[0], now, freshId)] + rest;
      assert r[0] == Successor(tasks[0], now, freshId);
    }
  }

  /** The positions of the chores a status change schedules a successor
      for. */
  ghost function SpawnPositions(tasks: seq<Task>, id: string, status: Status): set<nat> {
    Positions(tasks, t => Qualifies(t, id, status))
  }

  /** One successor per qualifying chore, even when several chores share
      the id. */
  lemma {:induction false} SpawnedCount(tasks: seq<Task>, id: string, status: Status, now: Date, freshId: string)
    requires Valid(now)
    ensures |Spawned(tasks, id, status, now, freshId)| == |SpawnPositions(tasks, id, status)|
  {
    SpawnedLength(tasks, id, status, now, freshId);
    CountWhereIsPositions(tasks, t => Qualifies(t, id, status));
  }

  lemma {:induction false} SpawnedLength(tasks: seq<Task>, id: string, status: Status, now: Date, freshId: string)
    requires Valid(now)
    ensures |Spawned(tasks, id, status, now, freshId)| == CountWhere(tasks, t => Qualifies(t, id, status))
  {
    if tasks != [] {
      SpawnedLength(tasks[1..], id, status, now, freshId);
    }
  }

  /** `handleStatusChange(id, status)`: the chores with the id get the new
      status and nothing else changes; the scheduled successors follow the
      original list. */
  function StatusChange(tasks: seq<Task>, id: string, status: Status, now: Date, freshId: string): (r: seq<Task>)
    requires Valid(now)
    ensures |tasks| <= |r|
    ensures forall i :: 0 <= i < |tasks| ==>
              r[i] == if tasks[i].id == id then tasks[i].(status := status) else tasks[i]
    ensures status != Done ==> r == r[..|tasks|]
    ensures r[|tasks|..] == Spawned(tasks, id, status, now, freshId)
  {
    var updated := seq(|tasks|, i requires 0 <= i < |tasks| =>
                     if tasks[i].id == id then tasks[i].(status := status) else tasks[i]);
    updated + Spawned(tasks, id, status, now, freshId)
  }

  /** Ids are unique in the list. The source does not enforce this. */
  predicate UniqueIds(tasks: seq<Task>) {
    forall i, j :: 0 <= i < j < |tasks| ==> tasks[i].id != tasks[j].id
  }

  lemma {:induction false} SpawnedSingle(tasks: seq<Task>, k: nat, status: Status, now: Date, freshId: string)
    requires Valid(now) && UniqueIds(tasks) && k < |tasks|
    ensures Spawned(tasks, tasks[k].id, status, now, freshId)
            == if SpawnsOn(tasks[k], status) then [Successor(tasks[k], now, freshId)] else []
  {
    var id := tasks[k].id;
    if k == 0 {
      assert forall i :: 0 <= i < |tasks[1..]| ==> tasks[1..][i].id != id by {
        forall i | 0 <= i < |tasks[1..]| ensures tasks[1..][i].id != id {
          assert tasks[1..][i] == tasks[i + 1];
        }
      }
    } else {
      assert tasks[1..][k - 1] == tasks[k];
      assert UniqueIds(tasks[1..]) by {
        forall i, j | 0 <= i < j < |tasks[1..]| ensures tasks[1..][i].id != tasks[1..][j].id {
          assert tasks[1..][i] == tasks[i + 1] && tasks[1..][j] == tasks[j + 1];
        }
      }
      SpawnedSingle(tasks[1..], k - 1, status, now, freshId);
    }
  }

  /** With unique ids, marking a repeating chore `done` appends exactly one
      successor; any other change appends nothing. Re-marking a chore that
      is already `done` spawns again. */
  lemma StatusChangeUniqueIds(tasks: seq<Task>, k: nat, status: Status, now: Date, freshId: string)
    requires Valid(now) && UniqueIds(tasks) && k < |tasks|
    ensures var r := StatusChange(tasks, tasks[k].id, status, now, freshId);
            && r[k] == tasks[k].(status := status)
            && (SpawnsOn(tasks[k], status) ==> r == r[..|tasks|] + [Successor(tasks[k], now, freshId)])
            && (!SpawnsOn(tasks[k], status) ==> |r| == |tasks|)
  {
    SpawnedSingle(tasks, k, status, now, freshId);
  }

  // ---- saving the modal's data ----

  /** `choreData.x || fallback` for a string key: an absent key or the
      empty string falls back. */
  function OrNonEmpty(f: Field<string>, fallback: string): (r: string)
    ensures f.Present? && f.value != "" ==> r == f.value
    ensures !(f.Present? && f.value != "") ==> r == fallback
  {
    if f.Present? && f.value != "" then f.value else fallback
  }

  /** The chore appended when the modal was not editing: missing fields take
      the defaults; assignees fall back to the current user only when the
      key is absent (an empty list is kept). */
  function NewTask(data: Patch, user: User, freshId: string): (t: Task)
    ensures t.id == freshId
    ensures t.title == data.title.Or("")
    ensures t.description == data.description.Or(None) && t.dueDate == data.dueDate.Or(None)
    ensures t.category == OrNonEmpty(data.category, DefaultCategory) && t.icon == OrNonEmpty(data.icon, DefaultIcon)
    ensures t.assignees == data.assignees.Or([Assignee(user.id, user.name, None)])
    ensures t.status == data.status.Or(Todo) && t.priority == data.priority.Or(Medium)
    ensures t.recurring.Some?
    ensures data.recurring.Present? && data.recurring.value.Some? ==> t.recurring == data.recurring.value
    ensures !(data.recurring.Present? && data.recurring.value.Some?) ==> t.recurring == Some(NoRepeat)
  {
    Task(freshId, data.title.Or(""), data.description.Or(None), data.dueDate.Or(None),
         OrNonEmpty(data.category, DefaultCategory), OrNonEmpty(data.icon, DefaultIcon),
         data.assignees.Or([Assignee(user.id, user.name, None)]),
         data.status.Or(Todo), data.priority.Or(Medium),
         if data.recurring.Present? && data.recurring.value.Some? then data.recurring.value else Some(NoRepeat))
  }

  /** `handleSaveChore(data)`: when editing, every chore with the edited id
      is overridden by the data in place; otherwise a new chore is appended. */
  function SaveChore(tasks: seq<Task>, editing: Option<Task>, data: Patch, user: User, freshId: string): (r: seq<Task>)
    ensures editing.Some? ==> |r| == |tasks|
    ensures editing.Some? ==> forall i :: 0 <= i < |tasks| ==>
              r[i] == if tasks[i].id == editing.value.id then Merge(tasks[i], data) else tasks[i]
    ensures editing.None? ==> r == tasks + [NewTask(data, user, freshId)]
  {
    match editing
    case Some(e) => seq(|tasks|, i requires 0 <= i < |tasks| =>
                      if tasks[i].id == e.id then Merge(tasks[i], data) else tasks[i])
    case None => tasks + [NewTask(data, user, freshId)]
  }

  /** Saving the full data of an existing chore over itself leaves the list
      unchanged. */
  lemma SaveUnchangedIsIdentity(tasks: seq<Task>, k: nat, user: User, freshId: string)
    requires k < |tasks| && UniqueIds(tasks)
    ensures SaveChore(tasks, Some(tasks[k]), PatchOf(tasks[k]), user, freshId) == tasks
  {
    var r := SaveChore(tasks, Some(tasks[k]), PatchOf(tasks[k]), user, freshId);
    forall i | 0 <= i < |tasks| ensures r[i] == tasks[i] {
      if i != k {
        assert tasks[i].id != tasks[k].id;
      }
    }
  }

  // ---- category filters ----

  /** `handleAddFilter(f)`: appended at the end. */
  function AddFilter(filters: seq<string>, f: string): (r: seq<string>)
    ensures |r| == |filters| + 1
    ensures r[..|filters|] == filters && r[|filters|] == f
  {
    filters + [f]
  }

  /** `handleRemoveFilter(f)`: every occurrence removed, the rest in order. */
  function RemoveFilter(filters: seq<string>, f: string): (r: seq<string>)
    ensures f !in r
    ensures forall g :: g != f ==> Count(r, g) == Count(filters, g)
  {
    Without(filters, f)
  }

  /** Adding a filter that was not active and then removing it restores
      the list. */
  lemma {:induction false} AddThenRemoveFilter(filters: seq<string>, f: string)
    requires f !in filters
    ensures RemoveFilter(AddFilter(filters, f), f) == filters
  {
    WithoutConcat(filters, [f], f);
    assert Without([f], f) == [];
  }
}
