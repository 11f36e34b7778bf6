/** The status-based chore card of the dashboard's lists: a coloured left
    border by priority, a category badge, the due date (red once past), a
    repeat marker and up to three assignee avatars with an overflow
    counter. */
module Card {
  import opened Base
  import opened Calendar
  import opened Chores
  import Numerals
  import Names

  /** The badge colours of the known categories, in table order. */
  const BadgeColors: seq<(string, string)> := [
    ("Cleaning", "bg-blue-100 text-blue-800"), ("Cooking", "bg-orange-100 text-orange-800"),
    ("Shopping", "bg-purple-100 text-purple-800"), ("Maintenance", "bg-gray-100 text-gray-800"),
    ("Outdoor", "bg-green-100 text-green-800"), ("Pet Care", "bg-yellow-100 text-yellow-800")]

  /** The badge of a category the table does not know. */
  const FallbackBadge: string := "bg-gray-100 text-gray-800"

  /** The number of avatars drawn before the overflow counter. */
  const MaxAvatars: nat := 3

  /** `table[key] || fallback` over a list of pairs: the first pair with that
      key, if its value is not empty. */
  function Lookup(table: seq<(string, string)>, key: string, fallback: string): (r: string)
    ensures (forall i :: 0 <= i < |table| ==> table[i].0 != key) ==> r == fallback
    ensures forall i :: (0 <= i < |table| && table[i].0 == key && table[i].1 != ""
                         && (forall j :: 0 <= j < i ==> table[j].0 != key)) ==> r == table[i].1
  {
    if table == [] then fallback
    else if table[0].0 == key then (if table[0].1 != "" then table[0].1 else fallback)
    else Lookup(table[1..], key, fallback)
  }

  /** The category badge's classes. */
  function BadgeClass(category: string): (r: string)
    ensures forall i :: 0 <= i < 6 && CategoryNames()[i] == category ==> r == BadgeColors[i].1
    ensures category !in CategoryNames() ==> r == FallbackBadge
  {
    Lookup(BadgeColors, category, FallbackBadge)
  }

  /** The badge table covers exactly the known categories. */
  lemma BadgeKeysAreCategories()
    ensures |BadgeColors| == 6
    ensures forall i :: 0 <= i < 6 ==> BadgeColors[i].0 == CategoryNames()[i]
  {
  }

  /** A Maintenance chore's badge cannot be told from an unknown
      category's; every other known category has its own colour. */
  lemma MaintenanceLooksUnknown(other: string)
    requires other !in CategoryNames()
    ensures BadgeClass("Maintenance") == BadgeClass(other)
    ensures forall i :: 0 <= i < 6 && i != 3 ==> BadgeClass(CategoryNames()[i]) != FallbackBadge
  {
    assert CategoryNames()[3] == "Maintenance";
    forall i | 0 <= i < 6 && i != 3
      ensures BadgeClass(CategoryNames()[i]) != FallbackBadge
    {
      assert BadgeClass(CategoryNames()[i]) == BadgeColors[i].1;
    }
  }

  /** The left border's class by priority. */
  function PriorityBorder(p: Priority): (r: string)
    ensures r == "border-l-green-400" <==> p == Low
    ensures r == "border-l-yellow-400" <==> p == Medium
    ensures r == "border-l-red-400" <==> p == High
  {
    match p
    case Low => "border-l-green-400"
    case Medium => "border-l-yellow-400"
    case High => "border-l-red-400"
  }

  /** Distinct priorities get distinct borders. */
  lemma PriorityBorderInjective(p: Priority, q: Priority)
    ensures PriorityBorder(p) == PriorityBorder(q) <==> p == q
  {
  }

  /** `chore.dueDate && new Date(chore.dueDate) < new Date()`. The card does
      not look at the status, so a done chore whose date has passed is still
      red. */
  function Overdue(t: Task, now: Moment): (b: bool)
    ensures b ==> t.dueDate.Some?
    ensures t.dueDate.Some? && Before(t.dueDate.value, now.date) ==> b
    ensures t.dueDate.Some? && Before(now.date, t.dueDate.value) ==> !b
  {
    t.dueDate.Some? && PastDue(t.dueDate.value, now)
  }

  /** The card shows the description line only for a non-empty one. */
  predicate ShowsDescription(t: Task) {
    t.description.Some? && t.description.value != ""
  }

  /** The date line is drawn only with a due date; its colour is red
      exactly when the chore is overdue. */
  function DateClass(t: Task, now: Moment): (r: Option<string>)
    ensures r.Some? <==> t.dueDate.Some?
    ensures r == Some("text-red-600") <==> Overdue(t, now)
  {
    if t.dueDate.None? then None
    else if PastDue(t.dueDate.value, now) then Some("text-red-600")
    else Some("text-gray-500")
  }

  /** The avatar row: the initials of the first three assignees, in order,
      and a `+n` counter for the rest when there are more than three. */
  datatype AvatarRow = AvatarRow(initials: seq<string>, overflow: Option<string>)

  function Avatars(assignees: seq<Assignee>): (r: AvatarRow)
    ensures |r.initials| == if |assignees| < MaxAvatars then |assignees| else MaxAvatars
    ensures forall i :: 0 <= i < |r.initials| ==> r.initials[i] == Names.Initials(assignees[i].name)
    ensures r.overflow.Some? <==> |assignees| > MaxAvatars
    ensures r.overflow.Some? ==> r.overflow.value == "+" + Numerals.IntToString(|assignees| - MaxAvatars)
  {
    var shown := if |assignees| < MaxAvatars then assignees else assignees[..MaxAvatars];
    AvatarRow(seq(|shown|, i requires 0 <= i < |shown| => Names.Initials(shown[i].name)),
              if |assignees| > MaxAvatars then Some("+" + Numerals.IntToString(|assignees| - MaxAvatars)) else None)
  }

  /** Every assignee is accounted for: the avatars drawn plus the number
      the counter reads back add up to the number of assignees. */
  lemma AvatarsAccountForAll(assignees: seq<Assignee>)
    ensures var r := Avatars(assignees);
            var hidden := if r.overflow.Some? then Numerals.ParseInt(r.overflow.value[1..]) else Some(0);
            hidden.Some? && |r.initials| + hidden.value == |assignees|
  {
    var r := Avatars(assignees);
    if r.overflow.Some? {
      var n := |assignees| - MaxAvatars;
      assert r.overflow.value[1..] == Numerals.IntToString(n);
      Numerals.ParseIntToString(n);
    }
  }
}
