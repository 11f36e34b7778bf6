/** The sort control: the current sort key and direction, how choosing an
    option changes them, and the label of the control. */
module Sorting {

  datatype SortOption = ByCategory | ByPriority | ByDueDate | ByCreatedAt
  datatype Direction = Asc | Desc

  datatype SortState = SortState(key: SortOption, dir: Direction)

  /** The options with their labels, in menu order. */
  const SortOptions: seq<(SortOption, string)> := [
    (ByCategory, "Category"), (ByPriority, "Priority"),
    (ByDueDate, "Due Date"), (ByCreatedAt, "Date Created")]

  function Flip(d: Direction): (r: Direction)
    ensures r != d
  {
    if d == Asc then Desc else Asc
  }

  /** `handleSortSelect(option)`: choosing the current option flips the
      direction; choosing another starts it ascending. */
  function Select(s: SortState, option: SortOption): (r: SortState)
    ensures r.key == option
    ensures option == s.key ==> r.dir != s.dir
    ensures option != s.key ==> r.dir == Asc
  {
    if option == s.key then SortState(s.key, Flip(s.dir)) else SortState(option, Asc)
  }

  /** Choosing the current option twice restores the state; choosing a new
      option twice sorts by it descending. */
  lemma SelectTwice(s: SortState, option: SortOption)
    ensures option == s.key ==> Select(Select(s, option), option) == s
    ensures option != s.key ==> Select(Select(s, option), option) == SortState(option, Desc)
  {
  }

  /** `sortOptions.find(opt => opt.value === sortBy)?.label`. */
  function FindLabel(table: seq<(SortOption, string)>, option: SortOption): (r: string)
    ensures (exists i :: 0 <= i < |table| && table[i].0 == option) ==> exists i :: 0 <= i < |table| && table[i] == (option, r)
  {
    if table == [] then "undefined"
    else if table[0].0 == option then table[0].1
    else FindLabel(table[1..], option)
  }

  /** The menu's label of an option. */
  function OptionLabel(option: SortOption): (r: string)
    ensures option == ByCategory ==> r == "Category"
    ensures option == ByPriority ==> r == "Priority"
    ensures option == ByDueDate ==> r == "Due Date"
    ensures option == ByCreatedAt ==> r == "Date Created"
  {
    assert SortOptions[0].0 == ByCategory && SortOptions[1].0 == ByPriority;
    assert SortOptions[2].0 == ByDueDate && SortOptions[3].0 == ByCreatedAt;
    FindLabel(SortOptions, option)
  }

  function DirectionText(d: Direction): string {
    if d == Asc then "A-Z" else "Z-A"
  }

  /** `getSortLabel()`: the option's label and the direction, e.g.
      `Category (A-Z)`. */
  function SortLabel(s: SortState): (r: string)
    ensures s.dir == Asc ==> r == OptionLabel(s.key) + " (A-Z)"
    ensures s.dir == Desc ==> r == OptionLabel(s.key) + " (Z-A)"
  {
    OptionLabel(s.key) + " (" + DirectionText(s.dir) + ")"
  }

  /** Every option has its own label, so the control never shows
      `undefined`, and two different states never show the same label. */
  lemma LabelsDistinct(s: SortState, t: SortState)
    requires SortLabel(s) == SortLabel(t)
    ensures s == t
  {
    var ls := OptionLabel(s.key);
    var lt := OptionLabel(t.key);
    var a := SortLabel(s);
    // the direction is the fourth character from the end: `A` or `Z`
    assert a[|a| - 4] == DirectionText(s.dir)[0];
    assert SortLabel(t)[|a| - 4] == DirectionText(t.dir)[0];
    // the label is what precedes the last six characters
    assert a[..|a| - 6] == ls;
    assert SortLabel(t)[..|a| - 6] == lt;
    LabelInjective(s.key, t.key);
  }

  lemma LabelInjective(o: SortOption, p: SortOption)
    requires OptionLabel(o) == OptionLabel(p)
    ensures o == p
  {
    assert SortOptions[0].0 == ByCategory && SortOptions[1].0 == ByPriority;
    assert SortOptions[2].0 == ByDueDate && SortOptions[3].0 == ByCreatedAt;
    assert FindLabel(SortOptions, ByCategory) == "Category";
    assert FindLabel(SortOptions, ByPriority) == "Priority";
    assert FindLabel(SortOptions, ByDueDate) == "Due Date";
    assert FindLabel(SortOptions, ByCreatedAt) == "Date Created";
  }

  /** The arrow next to a menu item: shown only on the current option. */
  function Arrow(s: SortState, option: SortOption): (r: string)
    ensures r != "" <==> option == s.key
    ensures option == s.key ==> r == (if s.dir == Asc then "↑" else "↓")
  {
    if option != s.key then "" else if s.dir == Asc then "↑" else "↓"
  }
}
