/** The hate-level picker: seven radio options whose values travel as
    strings (`toString` out, `parseInt` back), and the colour band of a
    level. */
module HatePoints {
  import opened Base
  import Numerals
  import Names
  import Stats

  /** The options' values and labels, 1 to 7. */
  const HateOptions: seq<(int, string)> := [
    (1, "Mildly Annoying"), (2, "I have done worse"), (3, "This is worse"),
    (4, "Hate it"), (5, "Really hate it"), (6, "Absolutely despise"), (7, "Pure agony")]

  const GreenBand: string := "text-green-600 border-green-200"
  const YellowBand: string := "text-yellow-600 border-yellow-200"
  const RedBand: string := "text-red-600 border-red-200"
  const UnselectedBorder: string := "border-gray-200"

  lemma OptionValues()
    ensures |HateOptions| == 7
    ensures forall i :: 0 <= i < 7 ==> HateOptions[i].0 == i + 1
  {
  }

  /** `getHatePointsColor(points)`. */
  function BandColor(points: int): (c: string)
    ensures c == GreenBand <==> points <= 2
    ensures c == YellowBand <==> 3 <= points <= 4
    ensures c == RedBand <==> points >= 5
  {
    if points <= 2 then GreenBand else if points <= 4 then YellowBand else RedBand
  }

  /** Position of a band from mild to severe. */
  function Severity(c: string): nat {
    if c == GreenBand then 0 else if c == YellowBand then 1 else 2
  }

  /** More hate never shows a milder colour. */
  lemma BandMonotone(p: int, q: int)
    requires p <= q
    ensures Severity(BandColor(p)) <= Severity(BandColor(q))
  {
  }

  /** The red band is exactly the statistics' high-hate threshold. */
  lemma RedIffHighHate(points: int)
    ensures BandColor(points) == RedBand <==> points >= Stats.HighHate
  {
  }

  /** The heart's class: `getHatePointsColor(v).split(' ')[0]`, the text
      colour alone. */
  function HeartClass(points: int): (c: string)
    ensures c == (if points <= 2 then "text-green-600" else if points <= 4 then "text-yellow-600" else "text-red-600")
  {
    var band := BandColor(points);
    if points <= 2 then GreenFirstWord(); Names.Split(band, ' ')[0]
    else if points <= 4 then YellowFirstWord(); Names.Split(band, ' ')[0]
    else RedFirstWord(); Names.Split(band, ' ')[0]
  }

  lemma GreenFirstWord()
    ensures Names.Split(GreenBand, ' ')[0] == "text-green-600"
  {
    assert GreenBand == "text-green-600" + " border-green-200";
    SplitHead("text-green-600", " border-green-200");
  }

  lemma YellowFirstWord()
    ensures Names.Split(YellowBand, ' ')[0] == "text-yellow-600"
  {
    assert YellowBand == "text-yellow-600" + " border-yellow-200";
    SplitHead("text-yellow-600", " border-yellow-200");
  }

  lemma RedFirstWord()
    ensures Names.Split(RedBand, ' ')[0] == "text-red-600"
  {
    assert RedBand == "text-red-600" + " border-red-200";
    SplitHead("text-red-600", " border-red-200");
  }

  /** The first piece of `head + tail` split at spaces is `head` when
      `head` has no space and `tail` starts with one. */
  lemma SplitHead(head: string, tail: string)
    requires ' ' !in head && |tail| > 0 && tail[0] == ' '
    ensures Names.Split(head + tail, ' ')[0] == head
  {
    Names.SplitPrefix(head, tail, ' ');
    assert Names.Split(tail, ' ')[0] == "";
    assert head + "" == head;
  }

  /** The class of an option row: the band of the option when it is the
      current level, a plain border otherwise. */
  function RowClass(current: int, value: int): (c: string)
    ensures c != UnselectedBorder <==> current == value
  {
    if current == value then BandColor(value) else UnselectedBorder
  }

  /** The radio group marks the option whose string equals
      `hatePoints.toString()`; as decimal strings are unique, that is
      exactly the option equal to the current level. */
  lemma RadioSelectedIff(current: int, value: int)
    ensures Numerals.IntToString(current) == Numerals.IntToString(value) <==> current == value
  {
    Numerals.ParseIntToString(current);
    Numerals.ParseIntToString(value);
  }

  /** Choosing an option reports its value back: `parseInt` undoes
      `toString`. */
  function Chosen(value: int): (r: Option<int>)
    ensures r == Some(value)
  {
    Numerals.ParseIntToString(value);
    Numerals.ParseInt(Numerals.IntToString(value))
  }

  /** Exactly one row is highlighted when the level is between 1 and 7, and
      none otherwise. */
  lemma HighlightedRows(current: int)
    ensures 1 <= current <= 7 ==> forall i :: 0 <= i < 7 ==> (RowClass(current, HateOptions[i].0) != UnselectedBorder <==> i == current - 1)
    ensures !(1 <= current <= 7) ==> forall i :: 0 <= i < 7 ==> RowClass(current, HateOptions[i].0) == UnselectedBorder
  {
    OptionValues();
  }
}
