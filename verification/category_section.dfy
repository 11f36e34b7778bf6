/** The category and icon pickers of the chore form. Choosing a category
    always reports it and, for a known category, also reports its icon;
    the icon grid offers twelve icons and marks the current one. */
module CategoryPicker {
  import opened Base
  import opened Chores

  datatype Event = CategoryChanged(category: string) | IconChanged(icon: string)

  /** The picker's inputs: the current category and icon. */
  datatype Selection = Selection(category: string, icon: string)

  /** The icon grid, in display order; its first six are the known
      categories' icons. */
  const IconOptions: seq<string> := ["🧹", "🍳", "🛒", "🔧", "🌱", "🐕", "🗑️", "🚗", "💡", "📱", "👕", "🏠"]

  /** `handleCategoryChange(category)`: the events it emits, in order. */
  function ChooseCategory(category: string): (es: seq<Event>)
    ensures |es| >= 1 && es[0] == CategoryChanged(category)
    ensures |es| == 2 <==> category in CategoryNames()
    ensures |es| <= 2
    ensures |es| == 2 ==> es[1] == IconChanged(TableIcon(category).value)
  {
    match TableIcon(category)
    case None => [CategoryChanged(category)]
    case Some(icon) => [CategoryChanged(category), IconChanged(icon)]
  }

  /** The parent's handlers applied to the selection. */
  function Apply(s: Selection, es: seq<Event>): Selection
    decreases |es|
  {
    if es == [] then s
    else
      var e := es[0];
      var next := match e
        case CategoryChanged(c) => s.(category := c)
        case IconChanged(i) => s.(icon := i);
      Apply(next, es[1..])
  }

  /** Choosing a known category selects it with its table icon; choosing an
      unknown one keeps the icon. */
  lemma ChooseCategoryEffect(s: Selection, category: string)
    ensures category in CategoryNames() ==>
              Apply(s, ChooseCategory(category)) == Selection(category, TableIcon(category).value)
    ensures category !in CategoryNames() ==>
              Apply(s, ChooseCategory(category)) == s.(category := category)
  {
    var es := ChooseCategory(category);
    var s1 := s.(category := category);
    assert Apply(s, es) == Apply(s1, es[1..]);
    if |es| == 2 {
      assert es[1..][1..] == [];
      assert Apply(s1, es[1..]) == Apply(s1.(icon := TableIcon(category).value), []);
    } else {
      assert es[1..] == [];
    }
  }

  /** A grid icon is highlighted iff it is the current icon. */
  predicate Highlighted(s: Selection, option: string) {
    s.icon == option
  }

  /** Clicking a grid icon selects it and leaves the category alone. */
  function ClickIcon(s: Selection, option: string): (r: Selection)
    requires option in IconOptions
    ensures Highlighted(r, option) && r.category == s.category
  {
    var es := [IconChanged(option)];
    assert es[1..] == [];
    assert Apply(s, es) == Apply(s.(icon := option), []);
    Apply(s, es)
  }

  /** The twelve grid icons are distinct, so at most one is highlighted. */
  lemma GridDistinct()
    ensures |IconOptions| == 12
    ensures forall i, j :: 0 <= i < j < 12 ==> IconOptions[i] != IconOptions[j]
  {
  }

  /** The known categories' icons are the grid's first six, in table order,
      so choosing a known category highlights its own cell and no other. */
  lemma ChosenCategoryHighlighted(s: Selection, k: nat, j: nat)
    requires k < 6 && j < 12
    ensures Highlighted(Apply(s, ChooseCategory(CategoryNames()[k])), IconOptions[j]) <==> j == k
  {
    var category := CategoryNames()[k];
    ChooseCategoryEffect(s, category);
    assert TableIcon(category) == Some(CategoryTable[k].1);
    assert CategoryTable[k].1 == IconOptions[k];
    GridDistinct();
  }
}
