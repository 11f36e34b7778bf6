/** The category filter bar: one chip per active filter and a dropdown
    offering the known categories that are not active yet. */
module FilterChips {
  import opened Base
  import opened Chores
  import Dashboard

  /** `s.filter(x => !excluded.includes(x))`. */
  function FilterNotIn(s: seq<string>, excluded: seq<string>): (r: seq<string>)
    ensures |r| <= |s|
    ensures forall x :: x in r <==> x in s && x !in excluded
    ensures NoDup(s) ==> NoDup(r)
  {
    if s == [] then []
    else
      var rest := FilterNotIn(s[1..], excluded);
      assert s == [s[0]] + s[1..];
      if s[0] in excluded then rest else [s[0]] + rest
  }

  /** The filters offered by the dropdown: the known categories, in table
      order, that are not active. */
  function UnusedFilters(active: seq<string>): (r: seq<string>)
    ensures forall f :: f in r <==> f in CategoryNames() && f !in active
    ensures NoDup(r)
    ensures |r| <= |CategoryNames()|
  {
    FilterNotIn(CategoryNames(), active)
  }

  /** One element is kept exactly when it is not excluded. */
  lemma FilterNotInSingle(x: string, excluded: seq<string>)
    ensures FilterNotIn([x], excluded) == if x in excluded then [] else [x]
  {
    assert [x][1..] == [];
  }

  /** The filter keeps the order of its input: of two kept elements, the
      earlier one in the input comes first. */
  lemma {:induction false} FilterNotInKeepsOrder(s: seq<string>, excluded: seq<string>, i: nat, j: nat)
    requires i < j < |s| && s[i] !in excluded && s[j] !in excluded
    ensures exists p, q :: 0 <= p < q < |FilterNotIn(s, excluded)|
              && FilterNotIn(s, excluded)[p] == s[i] && FilterNotIn(s, excluded)[q] == s[j]
  {
    if i == 0 {
      KeptHeadComesFirst(s, excluded, j);
    } else {
      var rest := FilterNotIn(s[1..], excluded);
      assert s[i] == s[1..][i - 1] && s[j] == s[1..][j - 1];
      FilterNotInKeepsOrder(s[1..], excluded, i - 1, j - 1);
      var p, q :| 0 <= p < q < |rest| && rest[p] == s[i] && rest[q] == s[j];
      KeptTailKeepsOrder(s, excluded, p, q);
    }
  }

  /** A kept first element comes before every other kept element. */
  lemma KeptHeadComesFirst(s: seq<string>, excluded: seq<string>, j: nat)
    requires 0 < j < |s| && s[0] !in excluded && s[j] !in excluded
    ensures exists q :: 0 < q < |FilterNotIn(s, excluded)|
              && FilterNotIn(s, excluded)[0] == s[0] && FilterNotIn(s, excluded)[q] == s[j]
  {
    var rest := FilterNotIn(s[1..], excluded);
    var r := FilterNotIn(s, excluded);
    assert r == [s[0]] + rest;
    assert s[j] == s[1..][j - 1];
    assert s[j] in rest;
    var q :| 0 <= q < |rest| && rest[q] == s[j];
    assert r[q + 1] == s[j];
  }

  /** The kept elements after the first keep their order. */
  lemma KeptTailKeepsOrder(s: seq<string>, excluded: seq<string>, p: nat, q: nat)
    requires s != [] && p < q < |FilterNotIn(s[1..], excluded)|
    ensures exists p', q' :: 0 <= p' < q' < |FilterNotIn(s, excluded)|
              && FilterNotIn(s, excluded)[p'] == FilterNotIn(s[1..], excluded)[p]
              && FilterNotIn(s, excluded)[q'] == FilterNotIn(s[1..], excluded)[q]
  {
    var rest := FilterNotIn(s[1..], excluded);
    var r := FilterNotIn(s, excluded);
    if s[0] in excluded {
      assert r == rest;
    } else {
      assert r == [s[0]] + rest;
      assert r[p + 1] == rest[p] && r[q + 1] == rest[q];
    }
  }

  /** The dropdown lists the unused categories in table order: of two
      unused categories, the one earlier in the table comes first. */
  lemma UnusedFiltersInTableOrder(active: seq<string>, i: nat, j: nat)
    requires i < j < |CategoryNames()|
    requires CategoryNames()[i] !in active && CategoryNames()[j] !in active
    ensures exists p, q :: 0 <= p < q < |UnusedFilters(active)|
              && UnusedFilters(active)[p] == CategoryNames()[i] && UnusedFilters(active)[q] == CategoryNames()[j]
  {
    var r := UnusedFilters(active);
    assert r == FilterNotIn(CategoryNames(), active);
    FilterNotInKeepsOrder(CategoryNames(), active, i, j);
    var p, q :| 0 <= p < q < |r| && r[p] == CategoryNames()[i] && r[q] == CategoryNames()[j];
  }

  /** The dropdown is rendered only while something is left to add. */
  predicate ShowsDropdown(active: seq<string>) {
    |UnusedFilters(active)| > 0
  }

  lemma ShowsDropdownIff(active: seq<string>)
    ensures ShowsDropdown(active) <==> exists f :: f in CategoryNames() && f !in active
  {
    var u := UnusedFilters(active);
    if |u| > 0 {
      assert u[0] in u;
    }
  }

  /** Excluding one more value removes it from the filtered list and
      changes nothing else. */
  lemma {:induction false} FilterNotInSnoc(s: seq<string>, excluded: seq<string>, f: string)
    ensures FilterNotIn(s, excluded + [f]) == Without(FilterNotIn(s, excluded), f)
  {
    if s != [] {
      FilterNotInSnoc(s[1..], excluded, f);
      var rest := FilterNotIn(s[1..], excluded);
      if s[0] !in excluded && s[0] != f {
        assert ([s[0]] + rest)[1..] == rest;
      }
    }
  }

  /** Picking a filter from the dropdown appends it to the active list
      without creating a duplicate, and the dropdown stops offering it. */
  lemma AddFromDropdown(active: seq<string>, f: string)
    requires NoDup(active) && f in UnusedFilters(active)
    ensures NoDup(Dashboard.AddFilter(active, f))
    ensures UnusedFilters(Dashboard.AddFilter(active, f)) == Without(UnusedFilters(active), f)
  {
    FilterNotInSnoc(CategoryNames(), active, f);
  }

  /** Removing an active chip of a known category puts it back into the
      dropdown. */
  lemma RemoveChipOffersAgain(active: seq<string>, f: string)
    requires f in active && f in CategoryNames()
    ensures f in UnusedFilters(Dashboard.RemoveFilter(active, f))
    ensures !(f in UnusedFilters(active))
  {
  }

  /** With every known category active the dropdown disappears; with none
      active it offers all six in table order. */
  lemma DropdownExtremes(active: seq<string>)
    ensures (forall i :: 0 <= i < 6 ==> CategoryNames()[i] in active) ==> !ShowsDropdown(active)
    ensures UnusedFilters([]) == CategoryNames()
  {
    ShowsDropdownIff(active);
    FilterNotInNone(CategoryNames());
  }

  lemma {:induction false} FilterNotInNone(s: seq<string>)
    ensures FilterNotIn(s, []) == s
  {
    if s != [] {
      FilterNotInNone(s[1..]);
    }
  }
}
