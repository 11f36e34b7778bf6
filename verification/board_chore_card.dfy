/** The card of the two-column board: background and title style by
    column, a category stripe, a menu item that toggles completion, the
    due date (red once past, unless completed) and the first assignee's
    avatar.

    The card is declared over the status-based chore but reads the
    completion flag and the hate points of the persisted one; its input
    here is a persisted row together with the assignee list it reads. */
module BoardCard {
  import opened Base
  import opened Calendar
  import opened Chores
  import Names
  import Card
  import Board
  import ChoreStore

  /** The stripe colours of the known categories, in table order. */
  const StripeColors: seq<(string, string)> := [
    ("Cleaning", "bg-blue-500"), ("Cooking", "bg-orange-500"), ("Shopping", "bg-purple-500"),
    ("Maintenance", "bg-gray-500"), ("Outdoor", "bg-green-500"), ("Pet Care", "bg-yellow-500")]

  const FallbackStripe: string := "bg-gray-500"
  const DoneBackground: string := "bg-green-100"
  const OpenBackground: string := "bg-white"
  const StruckTitle: string := "line-through text-green-700"
  const MarkComplete: string := "Mark Complete"
  const MarkIncomplete: string := "Mark Incomplete"

  function StripeClass(category: string): (r: string)
    ensures forall i :: 0 <= i < 6 && CategoryNames()[i] == category ==> r == StripeColors[i].1
    ensures category !in CategoryNames() ==> r == FallbackStripe
  {
    Card.Lookup(StripeColors, category, FallbackStripe)
  }

  /** As on the list card, a Maintenance stripe is the unknown-category
      stripe. */
  lemma MaintenanceStripeLooksUnknown(other: string)
    requires other !in CategoryNames()
    ensures StripeClass("Maintenance") == StripeClass(other)
  {
    assert CategoryNames()[3] == "Maintenance";
  }

  /** The card's background is decided by the column, not the chore. */
  function Background(inDoneColumn: bool): (r: string)
    ensures r == DoneBackground <==> inDoneColumn
    ensures r == OpenBackground <==> !inDoneColumn
  {
    if inDoneColumn then DoneBackground else OpenBackground
  }

  /** The title's extra classes: struck through and green exactly in the
      done column, none in the open one. */
  function TitleClass(inDoneColumn: bool): (r: string)
    ensures r == StruckTitle <==> inDoneColumn
    ensures r == "" <==> !inDoneColumn
  {
    if inDoneColumn then StruckTitle else ""
  }

  /** The menu item's text, by the chore's own completion flag. */
  function MenuLabel(row: ChoreRow): (r: string)
    ensures r == MarkIncomplete <==> row.isCompleted
    ensures r == MarkComplete <==> !row.isCompleted
  {
    if row.isCompleted then MarkIncomplete else MarkComplete
  }

  /** `chore.dueDate && new Date(chore.dueDate) < new Date() &&
      !chore.isCompleted`: unlike the list card, a completed chore is never
      overdue. */
  function Overdue(row: ChoreRow, now: Moment): (b: bool)
    ensures b ==> row.dueDate.Some? && !row.isCompleted
    ensures row.dueDate.Some? && !row.isCompleted && Before(row.dueDate.value, now.date) ==> b
    ensures row.dueDate.Some? && Before(now.date, row.dueDate.value) ==> !b
  {
    row.dueDate.Some? && PastDue(row.dueDate.value, now) && !row.isCompleted
  }

  /** The date line is drawn only with a due date; its colour is red
      exactly when the chore is overdue. */
  function DateClass(row: ChoreRow, now: Moment): (r: Option<string>)
    ensures r.Some? <==> row.dueDate.Some?
    ensures r == Some("text-red-600") <==> Overdue(row, now)
  {
    if row.dueDate.None? then None
    else if Overdue(row, now) then Some("text-red-600")
    else Some("text-gray-500")
  }

  /** The repeat badge beside the date line. */
  function RepeatBadge(row: ChoreRow): (r: Option<string>)
    ensures r.Some? <==> Repeats(row.recurring)
    ensures r.Some? ==> r.value == RecurrenceText(row.recurring.value)
  {
    Chores.RepeatBadge(row.recurring)
  }

  /** The info row's guard: `chore.dueDate || (chore.recurring &&
      chore.recurring !== 'none')`. */
  predicate ShowsDetails(row: ChoreRow) {
    row.dueDate.Some? || Repeats(row.recurring)
  }

  /** The info row is drawn exactly when one of its two items is: the date
      line or the repeat badge. It is never drawn empty. */
  lemma DetailsIffDateOrBadge(row: ChoreRow, now: Moment)
    ensures ShowsDetails(row) <==> DateClass(row, now).Some? || RepeatBadge(row).Some?
  {
  }

  /** The single avatar: the first assignee's initials, none without
      assignees. */
  function FirstAvatar(assignees: seq<Assignee>): (r: Option<string>)
    ensures r.None? <==> assignees == []
    ensures r.Some? ==> r.value == Names.Initials(assignees[0].name)
  {
    if assignees == [] then None else Some(Names.Initials(assignees[0].name))
  }

  /** The board's avatar is the first avatar the list card would draw for
      the same assignees. */
  lemma FirstAvatarAgreesWithCard(assignees: seq<Assignee>)
    requires assignees != []
    ensures FirstAvatar(assignees) == Some(Card.Avatars(assignees).initials[0])
  {
  }

  /** Every card of the done column is green, struck through, offers
      "Mark Incomplete" and is never overdue; every card of the open column
      is white and offers "Mark Complete". */
  lemma ColumnCards(cs: seq<Chore>, done: bool, i: nat, now: Moment)
    requires i < |Board.Column(cs, done)|
    ensures var row := Board.Column(cs, done)[i].row;
            && (Background(done) == DoneBackground <==> row.isCompleted)
            && (TitleClass(done) == StruckTitle <==> row.isCompleted)
            && (MenuLabel(row) == MarkIncomplete <==> done)
            && (done ==> !Overdue(row, now))
  {
  }

  /** The menu item does what it says: after the toggle it triggers is
      written, every stored row of that chore is completed exactly when the
      item read "Mark Complete". */
  lemma MenuDoesWhatItSays(local: seq<Chore>, db: ChoreStore.Db, k: nat, j: nat, now: Date,
                           freshId: string, insert: ChoreStore.WriteResult)
    requires Valid(now) && k < |local| && j < |db.chores|
    requires forall i :: 0 <= i < k ==> local[i].row.id != local[k].row.id
    requires db.chores[j].id == local[k].row.id
    ensures var r := ChoreStore.ToggleComplete(local, db, local[k].row.id, now, freshId, ChoreStore.Written, insert);
            r.db.chores[j].isCompleted <==> MenuLabel(local[k].row) == MarkComplete
  {
    var id := local[k].row.id;
    var f := ChoreStore.Find(local, id);
    var m :| 0 <= m < |local| && local[m] == f.value && local[m].row.id == id
             && forall i :: 0 <= i < m ==> local[i].row.id != id;
    assert m == k;
  }
}
