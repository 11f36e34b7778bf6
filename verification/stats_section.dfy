/** The statistics block over completion-based chores: counts, completion
    rate, average hate points, the high-hate count, per-category hate totals
    (an object filled in chore order) and the most hated category. Rates and
    averages are exact fractions; rounding for display is not modelled. */
module Stats {
  import opened Base
  import opened Chores
  import Board

  /** An exact fraction `num / den` with `den > 0`. */
  datatype Ratio = Ratio(num: int, den: int)

  /** The hate-point threshold of a "high-hate" chore. */
  const HighHate: int := 5

  function CompletedCount(cs: seq<Chore>): (n: nat)
    ensures n <= |cs|
    ensures n == 0 <==> forall i :: 0 <= i < |cs| ==> !cs[i].row.isCompleted
    ensures n == |cs| <==> forall i :: 0 <= i < |cs| ==> cs[i].row.isCompleted
  {
    if cs == [] then 0
    else CompletedCount(cs[..|cs| - 1]) + (if cs[|cs| - 1].row.isCompleted then 1 else 0)
  }

  function PendingCount(cs: seq<Chore>): (n: nat)
    ensures n + CompletedCount(cs) == |cs|
  {
    |cs| - CompletedCount(cs)
  }

  /** Completed share in percent; 0 for no chores. */
  function CompletionRate(cs: seq<Chore>): (r: Ratio)
    ensures r.den > 0 && 0 <= r.num <= 100 * r.den
    ensures |cs| == 0 ==> r.num == 0
    ensures |cs| > 0 ==> r.num * |cs| == 100 * CompletedCount(cs) * r.den
  {
    if |cs| > 0 then Ratio(100 * CompletedCount(cs), |cs|) else Ratio(0, 1)
  }

  predicate HatePointsInRange(cs: seq<Chore>) {
    forall i :: 0 <= i < |cs| ==> 1 <= cs[i].row.hatePoints <= 7
  }

  /** Sum of all hate points, folded in list order. */
  function TotalHate(cs: seq<Chore>): (t: int)
    ensures HatePointsInRange(cs) ==> |cs| <= t <= 7 * |cs|
  {
    if cs == [] then 0
    else TotalHate(cs[..|cs| - 1]) + cs[|cs| - 1].row.hatePoints
  }

  /** Average hate points; 0 for no chores. Within [1, 7] when every
      chore's points are. */
  function AverageHate(cs: seq<Chore>): (r: Ratio)
    ensures r.den > 0
    ensures |cs| == 0 ==> r.num == 0
    ensures |cs| > 0 ==> r.num * |cs| == TotalHate(cs) * r.den
    ensures |cs| > 0 && HatePointsInRange(cs) ==> r.den <= r.num <= 7 * r.den
  {
    if |cs| > 0 then Ratio(TotalHate(cs), |cs|) else Ratio(0, 1)
  }

  /** Number of chores with at least `HighHate` points. */
  function HighHateCount(cs: seq<Chore>): (n: nat)
    ensures n <= |cs|
    ensures n == 0 <==> forall i :: 0 <= i < |cs| ==> cs[i].row.hatePoints < HighHate
  {
    if cs == [] then 0
    else HighHateCount(cs[..|cs| - 1]) + (if cs[|cs| - 1].row.hatePoints >= HighHate then 1 else 0)
  }

  /** The completed count is the length of the board's "Recently Done"
      column: both count the chores whose completion flag is set. */
  lemma {:induction false} CompletedIsDoneColumn(cs: seq<Chore>)
    ensures CompletedCount(cs) == |Board.DoneChores(cs)|
  {
    if cs != [] {
      var front := cs[..|cs| - 1];
      var last := cs[|cs| - 1];
      assert cs == front + [last];
      CompletedIsDoneColumn(front);
      Board.ColumnConcat(front, [last], true);
      assert Board.Column([last], true) == (if last.row.isCompleted then [last] else []) + Board.Column([], true);
    }
  }

  /** The positions of the chores with at least `HighHate` points. */
  ghost function HighHatePositions(cs: seq<Chore>): set<nat> {
    Positions(cs, (c: Chore) => c.row.hatePoints >= HighHate)
  }

  /** The high-hate count is the number of chores with at least `HighHate`
      points. */
  lemma {:induction false} HighHateCountIsHighHateChores(cs: seq<Chore>)
    ensures HighHateCount(cs) == |HighHatePositions(cs)|
  {
    if cs != [] {
      HighHateCountIsHighHateChores(cs[..|cs| - 1]);
      PositionsSnoc(cs, (c: Chore) => c.row.hatePoints >= HighHate);
    }
  }

  // ---- per-category totals ----

  /** The chores' categories, in list order. */
  function Categories(cs: seq<Chore>): (r: seq<string>)
    ensures |r| == |cs| && forall i :: 0 <= i < |cs| ==> r[i] == cs[i].row.category
  {
    seq(|cs|, i requires 0 <= i < |cs| => cs[i].row.category)
  }

  /** Position of the first chore of category `x`; `|cs|` when there is
      none. */
  function FirstIndex(cs: seq<Chore>, x: string): (f: nat)
    ensures f <= |cs|
    ensures f < |cs| ==> cs[f].row.category == x
    ensures forall j :: 0 <= j < f ==> cs[j].row.category != x
  {
    if cs == [] then 0
    else
      var f := FirstIndex(cs[..|cs| - 1], x);
      if f < |cs| - 1 then f
      else if cs[|cs| - 1].row.category == x then |cs| - 1
      else |cs|
  }

  /** A category is carried exactly when it has a first position. */
  lemma FirstIndexCarried(cs: seq<Chore>, x: string)
    ensures FirstIndex(cs, x) < |cs| <==> x in Categories(cs)
  {
    if x in Categories(cs) {
      var i :| 0 <= i < |cs| && Categories(cs)[i] == x;
      assert FirstIndex(cs, x) <= i;
    }
  }

  /** Hate points of the chores of one category. */
  function SumFor(cs: seq<Chore>, cat: string): int {
    if cs == [] then 0
    else SumFor(cs[..|cs| - 1], cat) + (if cs[|cs| - 1].row.category == cat then cs[|cs| - 1].row.hatePoints else 0)
  }

  lemma {:induction false} SumForAbsent(cs: seq<Chore>, cat: string)
    requires cat !in Categories(cs)
    ensures SumFor(cs, cat) == 0
  {
    if cs != [] {
      var init := cs[..|cs| - 1];
      assert forall i :: 0 <= i < |init| ==> init[i] == cs[i];
      assert Categories(cs)[|cs| - 1] == cs[|cs| - 1].row.category;
      assert forall i :: 0 <= i < |init| ==> Categories(init)[i] == Categories(cs)[i];
      SumForAbsent(init, cat);
    }
  }

  /** Position of the entry with key `cat`, `|es|` when there is none. */
  function KeyIndex(es: seq<(string, int)>, cat: string): (k: nat)
    ensures k <= |es|
    ensures k < |es| ==> es[k].0 == cat
    ensures forall j :: 0 <= j < k ==> es[j].0 != cat
  {
    if es == [] then 0
    else if es[0].0 == cat then 0
    else 1 + KeyIndex(es[1..], cat)
  }

  function SumValues(es: seq<(string, int)>): int {
    if es == [] then 0 else es[0].1 + SumValues(es[1..])
  }

  lemma {:induction false} SumValuesUpdate(es: seq<(string, int)>, k: nat, v: int)
    requires k < |es|
    ensures SumValues(es[k := (es[k].0, es[k].1 + v)]) == SumValues(es) + v
  {
    if k > 0 {
      SumValuesUpdate(es[1..], k - 1, v);
      assert es[k := (es[k].0, es[k].1 + v)][1..] == es[1..][k - 1 := (es[k].0, es[k].1 + v)];
    }
  }

  lemma {:induction false} SumValuesAppend(es: seq<(string, int)>, e: (string, int))
    ensures SumValues(es + [e]) == SumValues(es) + e.1
  {
    if es != [] {
      assert (es + [e])[1..] == es[1..] + [e];
      SumValuesAppend(es[1..], e);
    }
  }

  /** `acc[cat] = (acc[cat] || 0) + points` on an insertion-ordered record:
      an existing key has its value increased in place, a new key is
      appended. */
  function AddTo(es: seq<(string, int)>, cat: string, points: int): (r: seq<(string, int)>)
    ensures |r| == |es| + (if KeyIndex(es, cat) < |es| then 0 else 1)
    ensures forall e :: 0 <= e < |r| ==> r[e].0 == if e < |es| then es[e].0 else cat
    ensures forall e :: 0 <= e < |r| ==>
              r[e].1 == (if e < |es| then es[e].1 else 0) + (if e == KeyIndex(es, cat) then points else 0)
  {
    var k := KeyIndex(es, cat);
    if k < |es| then es[k := (cat, es[k].1 + points)] else es + [(cat, points)]
  }

  lemma CategoriesSnoc(cs: seq<Chore>)
    requires |cs| > 0
    ensures Categories(cs) == Categories(cs[..|cs| - 1]) + [cs[|cs| - 1].row.category]
  {
  }

  /** Keys of the record are pairwise distinct. */
  predicate DistinctKeys(es: seq<(string, int)>) {
    forall a, b :: 0 <= a < b < |es| ==> es[a].0 != es[b].0
  }

  /** `chores.reduce(...)` into the per-category record, whose entries are
      enumerated in insertion order: one entry per category carried by some
      chore, and no other. */
  function CategoryTotals(cs: seq<Chore>): (es: seq<(string, int)>)
    ensures DistinctKeys(es)
    ensures forall cat :: cat in Categories(cs) <==> KeyIndex(es, cat) < |es|
    ensures |es| == 0 <==> |cs| == 0
  {
    if cs == [] then []
    else
      var c := cs[|cs| - 1].row;
      var prev := CategoryTotals(cs[..|cs| - 1]);
      CategoriesSnoc(cs);
      TotalsStep(prev, c.category, c.hatePoints);
      AddTo(prev, c.category, c.hatePoints)
  }

  lemma TotalsStep(prev: seq<(string, int)>, cat: string, points: int)
    requires DistinctKeys(prev)
    ensures DistinctKeys(AddTo(prev, cat, points))
    ensures forall x :: KeyIndex(AddTo(prev, cat, points), x) < |AddTo(prev, cat, points)|
                        <==> KeyIndex(prev, x) < |prev| || x == cat
  {
    var r := AddTo(prev, cat, points);
    forall x ensures KeyIndex(r, x) < |r| <==> KeyIndex(prev, x) < |prev| || x == cat {
      if KeyIndex(prev, x) < |prev| {
        assert r[KeyIndex(prev, x)].0 == x;
      } else if x == cat {
        assert r[|prev|].0 == cat;
      }
    }
  }

  /** Each entry holds its category's hate total. */
  lemma {:induction false} TotalsAreCategorySums(cs: seq<Chore>)
    ensures forall e :: 0 <= e < |CategoryTotals(cs)| ==> CategoryTotals(cs)[e].1 == SumFor(cs, CategoryTotals(cs)[e].0)
  {
    if cs != [] {
      var init := cs[..|cs| - 1];
      var c := cs[|cs| - 1].row;
      var prev := CategoryTotals(init);
      TotalsAreCategorySums(init);
      var es := CategoryTotals(cs);
      var k := KeyIndex(prev, c.category);
      assert es == AddTo(prev, c.category, c.hatePoints);
      forall e | 0 <= e < |es| ensures es[e].1 == SumFor(cs, es[e].0) {
        var x := es[e].0;
        assert SumFor(cs, x) == SumFor(init, x) + (if c.category == x then c.hatePoints else 0);
        if e < |prev| {
          assert x == prev[e].0;
          assert prev[e].1 == SumFor(init, prev[e].0);
          assert e == k <==> x == c.category;
        } else {
          assert c.category !in Categories(init);
          SumForAbsent(init, c.category);
        }
      }
    }
  }

  /** The entries' values add up to the overall hate total. */
  lemma {:induction false} TotalsAddUp(cs: seq<Chore>)
    ensures SumValues(CategoryTotals(cs)) == TotalHate(cs)
  {
    if cs != [] {
      var init := cs[..|cs| - 1];
      var c := cs[|cs| - 1].row;
      var prev := CategoryTotals(init);
      TotalsAddUp(init);
      var es := CategoryTotals(cs);
      var k := KeyIndex(prev, c.category);
      if k < |prev| {
        SumValuesUpdate(prev, k, c.hatePoints);
        assert es == prev[k := (prev[k].0, prev[k].1 + c.hatePoints)];
      } else {
        SumValuesAppend(prev, (c.category, c.hatePoints));
        assert es == prev + [(c.category, c.hatePoints)];
      }
    }
  }

  /** Every key of the totals is a carried category. */
  lemma KeyCarried(cs: seq<Chore>, e: nat)
    requires e < |CategoryTotals(cs)|
    ensures FirstIndex(cs, CategoryTotals(cs)[e].0) < |cs|
  {
    var es := CategoryTotals(cs);
    assert KeyIndex(es, es[e].0) <= e;
  }

  /** Entries are in order of the categories' first appearance. */
  lemma {:induction false} TotalsInFirstAppearanceOrder(cs: seq<Chore>)
    ensures var es := CategoryTotals(cs);
            forall a, b :: 0 <= a < b < |es| ==> FirstIndex(cs, es[a].0) < FirstIndex(cs, es[b].0)
  {
    if cs != [] {
      var init := cs[..|cs| - 1];
      var c := cs[|cs| - 1].row;
      var prev := CategoryTotals(init);
      TotalsInFirstAppearanceOrder(init);
      var es := CategoryTotals(cs);
      assert es == AddTo(prev, c.category, c.hatePoints);
      forall a, b | 0 <= a < b < |es| ensures FirstIndex(cs, es[a].0) < FirstIndex(cs, es[b].0) {
        KeyCarried(init, a);
        assert es[a].0 == prev[a].0;
        if b < |prev| {
          KeyCarried(init, b);
          assert es[b].0 == prev[b].0;
        } else {
          assert es[b].0 == c.category;
          FirstIndexCarried(init, c.category);
        }
      }
    }
  }

  /** The first entry with the largest value: the head of a stable sort by
      descending value. */
  function FirstMax(es: seq<(string, int)>): (k: nat)
    requires |es| > 0
    ensures k < |es|
    ensures forall j :: 0 <= j < |es| ==> es[j].1 <= es[k].1
    ensures forall j :: 0 <= j < k ==> es[j].1 < es[k].1
  {
    if |es| == 1 then 0
    else
      var k := FirstMax(es[..|es| - 1]);
      if es[|es| - 1].1 > es[k].1 then |es| - 1 else k
  }

  const NoCategory: string := "None"

  /** `cat` wins the most-hated ranking: it is carried, no carried category
      has a larger hate total, and every category met before it has a
      strictly smaller one. */
  predicate Winner(cs: seq<Chore>, cat: string) {
    && cat in Categories(cs)
    && (forall other :: other in Categories(cs) ==> SumFor(cs, other) <= SumFor(cs, cat))
    && (forall other :: other in Categories(cs) && FirstIndex(cs, other) < FirstIndex(cs, cat)
          ==> SumFor(cs, other) < SumFor(cs, cat))
  }

  /** `mostHated?.[0] || 'None'`. */
  function Shown(cat: string): string {
    if cat == "" then NoCategory else cat
  }

  /** One entry's value is its category's total. */
  lemma TotalAt(cs: seq<Chore>, e: nat)
    requires e < |CategoryTotals(cs)|
    ensures CategoryTotals(cs)[e].1 == SumFor(cs, CategoryTotals(cs)[e].0)
  {
    TotalsAreCategorySums(cs);
  }

  /** Two entries are ordered as their categories first appear. */
  lemma OrderAt(cs: seq<Chore>, a: nat, b: nat)
    requires a < b < |CategoryTotals(cs)|
    ensures FirstIndex(cs, CategoryTotals(cs)[a].0) < FirstIndex(cs, CategoryTotals(cs)[b].0)
  {
    TotalsInFirstAppearanceOrder(cs);
  }

  /** A carried category's entry. */
  lemma EntryOf(cs: seq<Chore>, x: string) returns (e: nat)
    requires x in Categories(cs)
    ensures e < |CategoryTotals(cs)| && CategoryTotals(cs)[e].0 == x
  {
    e := KeyIndex(CategoryTotals(cs), x);
  }

  /** The entry `FirstMax` picks from the totals is the winner. */
  lemma FirstMaxWins(cs: seq<Chore>)
    requires |cs| > 0
    ensures Winner(cs, CategoryTotals(cs)[FirstMax(CategoryTotals(cs))].0)
  {
    var es := CategoryTotals(cs);
    var cat := es[FirstMax(es)].0;
    KeyCarried(cs, FirstMax(es));
    FirstIndexCarried(cs, cat);
    forall other | other in Categories(cs) ensures SumFor(cs, other) <= SumFor(cs, cat) {
      FirstMaxIsMaximal(cs, other);
    }
    forall other | other in Categories(cs) && FirstIndex(cs, other) < FirstIndex(cs, cat)
      ensures SumFor(cs, other) < SumFor(cs, cat)
    {
      FirstMaxBeatsEarlier(cs, other);
    }
  }

  /** No carried category has a larger total than the picked entry's. */
  lemma FirstMaxIsMaximal(cs: seq<Chore>, other: string)
    requires |cs| > 0 && other in Categories(cs)
    ensures SumFor(cs, other) <= SumFor(cs, CategoryTotals(cs)[FirstMax(CategoryTotals(cs))].0)
  {
    var e := EntryOf(cs, other);
    TotalAt(cs, e);
    TotalAt(cs, FirstMax(CategoryTotals(cs)));
  }

  /** A carried category met before the picked entry's has a strictly
      smaller total: its entry comes earlier, and `FirstMax` takes the first
      maximum. */
  lemma FirstMaxBeatsEarlier(cs: seq<Chore>, other: string)
    requires |cs| > 0 && other in Categories(cs)
    requires FirstIndex(cs, other) < FirstIndex(cs, CategoryTotals(cs)[FirstMax(CategoryTotals(cs))].0)
    ensures SumFor(cs, other) < SumFor(cs, CategoryTotals(cs)[FirstMax(CategoryTotals(cs))].0)
  {
    var es := CategoryTotals(cs);
    var k := FirstMax(es);
    var e := EntryOf(cs, other);
    if e < k {
      TotalAt(cs, e);
      TotalAt(cs, k);
    } else if e == k {
      assert false;
    } else {
      OrderAt(cs, k, e);
      assert false;
    }
  }

  /** There is at most one winner: two different carried categories have
      different first positions, so the later one cannot beat the earlier
      strictly while neither exceeds the other. */
  lemma WinnerUnique(cs: seq<Chore>, a: string, b: string)
    requires Winner(cs, a) && Winner(cs, b)
    ensures a == b
  {
  }

  /** The most hated category shown: `"None"` without chores, otherwise
      the winner, where a winner named `""` also shows as `"None"`. */
  function MostHated(cs: seq<Chore>): (r: string)
    ensures |cs| == 0 ==> r == NoCategory
    ensures |cs| > 0 ==> exists cat :: Winner(cs, cat)
    ensures forall cat :: Winner(cs, cat) ==> r == Shown(cat)
  {
    var es := CategoryTotals(cs);
    if es == [] then NoCategory
    else
      var cat := es[FirstMax(es)].0;
      FirstMaxWins(cs);
      WinnerUniqueAll(cs, cat);
      Shown(cat)
  }

  lemma WinnerUniqueAll(cs: seq<Chore>, a: string)
    requires Winner(cs, a)
    ensures forall b :: Winner(cs, b) ==> b == a
  {
    forall b | Winner(cs, b) ensures b == a {
      WinnerUnique(cs, a, b);
    }
  }

  /** The worked example: one open Cleaning chore with 5 points and one
      completed Cleaning chore with 2 points. */
  lemma ExampleFigures(a: ChoreRow, b: ChoreRow)
    requires a.hatePoints == 5 && !a.isCompleted
    requires b.hatePoints == 2 && b.isCompleted
    ensures var cs := [Chore(a, []), Chore(b, [])];
            && CompletionRate(cs) == Ratio(100, 2)
            && AverageHate(cs) == Ratio(7, 2)
            && HighHateCount(cs) == 1
            && PendingCount(cs) == 1
  {
    var cs := [Chore(a, []), Chore(b, [])];
    assert cs[..1] == [Chore(a, [])];
    assert cs[..1][..0] == [];
    assert TotalHate(cs[..1]) == 5;
  }

  lemma ExampleMostHated(a: ChoreRow, b: ChoreRow)
    requires a.category == "Cleaning" && b.category == "Cleaning"
    ensures MostHated([Chore(a, []), Chore(b, [])]) == "Cleaning"
  {
    var cs := [Chore(a, []), Chore(b, [])];
    assert Categories(cs) == ["Cleaning", "Cleaning"];
    assert FirstIndex(cs, "Cleaning") == 0;
    assert Winner(cs, "Cleaning");
  }
}
