/** Small building blocks shared by every component of the chore board:
    optional values, "key present in a partial object", JavaScript-style
    trimming, and the `filter(x => x !== v)` idiom used for removals. */
module Base {

  /** A value that may be `undefined` / `null` in the source. */
  datatype Option<+T> = None | Some(value: T) {
    function GetOr(default: T): T {
      match this
      case Some(v) => v
      case None => default
    }
  }

  /** A key of a `Partial<...>` object: either the key is absent, or it is
      present and holds a value (which may itself be `undefined` when `T` is
      an `Option`). Object spread `{...a, ...b}` copies every PRESENT key of `b`. */
  datatype Field<+T> = Absent | Present(value: T) {
    function Or(fallback: T): T {
      match this
      case Present(v) => v
      case Absent => fallback
    }
  }

  /** Whitespace as `String.prototype.trim` and the regex class `\s` see it,
      restricted to the ASCII members of that class. */
  predicate IsSpace(c: char) {
    c == ' ' || c == '\t' || c == '\n' || c == '\r' || c == '\U{B}' || c == '\U{C}'
  }

  predicate AllSpace(s: string) {
    forall i :: 0 <= i < |s| ==> IsSpace(s[i])
  }

  /** Number of whitespace characters at the front of `s`. */
  function LeadingSpaces(s: string): (k: nat)
    ensures k <= |s|
    ensures forall i :: 0 <= i < k ==> IsSpace(s[i])
    ensures k < |s| ==> !IsSpace(s[k])
  {
    if |s| > 0 && IsSpace(s[0]) then 1 + LeadingSpaces(s[1..]) else 0
  }

  /** Number of whitespace characters at the back of `s`. */
  function TrailingSpaces(s: string): (k: nat)
    ensures k <= |s|
    ensures forall i :: |s| - k <= i < |s| ==> IsSpace(s[i])
    ensures k < |s| ==> !IsSpace(s[|s| - k - 1])
  {
    if |s| > 0 && IsSpace(s[|s| - 1]) then 1 + TrailingSpaces(s[..|s| - 1]) else 0
  }

  /** `s.trimStart()`. */
  function TrimStart(s: string): (r: string)
    ensures |r| > 0 ==> !IsSpace(r[0])
  {
    s[LeadingSpaces(s)..]
  }

  /** `s.trim()`: `s` without its leading and trailing whitespace. */
  function Trim(s: string): (r: string)
    ensures |r| <= |s|
    ensures r == [] <==> AllSpace(s)
    ensures |r| > 0 ==> !IsSpace(r[0]) && !IsSpace(r[|r| - 1])
    ensures exists a, b :: 0 <= a <= b <= |s| && r == s[a..b] && AllSpace(s[..a]) && AllSpace(s[b..])
  {
    var a := LeadingSpaces(s);
    var t := TrimStart(s);
    var b := a + |t| - TrailingSpaces(t);
    var r := t[..|t| - TrailingSpaces(t)];
    TrimEmptyIffAllSpace(s);
    assert r == s[a..b];
    assert AllSpace(s[b..]) by {
      forall i | 0 <= i < |s[b..]| ensures IsSpace(s[b..][i]) {
        assert s[b..][i] == t[|t| - TrailingSpaces(t) + i];
      }
    }
    r
  }

  /** Trimming both ends leaves nothing exactly when every character is
      whitespace. */
  lemma TrimEmptyIffAllSpace(s: string)
    ensures var t := TrimStart(s); t[..|t| - TrailingSpaces(t)] == [] <==> AllSpace(s)
  {
    var a := LeadingSpaces(s);
    var t := s[a..];
    if t[..|t| - TrailingSpaces(t)] == [] {
      assert |t| == 0 by {
        assert TrailingSpaces(t) == |t|;
      }
    }
  }

  /** The positions of `s` whose element satisfies `p`. */
  ghost function Positions<T>(s: seq<T>, p: T -> bool): set<nat> {
    set i: nat | i < |s| && p(s[i])
  }

  /** Extending a sequence by one element adds its position exactly when
      the element satisfies `p`. */
  lemma PositionsSnoc<T>(s: seq<T>, p: T -> bool)
    requires s != []
    ensures |Positions(s, p)| == |Positions(s[..|s| - 1], p)| + if p(s[|s| - 1]) then 1 else 0
  {
    var n := |s| - 1;
    var before := Positions(s[..n], p);
    var extra: set<nat> := if p(s[n]) then {n} else {};
    forall i: nat | i < n ensures (i in Positions(s, p)) == (i in before) {
      assert s[i] == s[..n][i];
    }
    assert Positions(s, p) == before + extra;
    assert n !in before;
  }

  /** The number of elements of `s` that satisfy `p`. */
  function CountWhere<T>(s: seq<T>, p: T -> bool): (n: nat)
    ensures n <= |s|
  {
    if s == [] then 0 else (if p(s[0]) then 1 else 0) + CountWhere(s[1..], p)
  }

  lemma {:induction false} CountWhereConcat<T>(a: seq<T>, b: seq<T>, p: T -> bool)
    ensures CountWhere(a + b, p) == CountWhere(a, p) + CountWhere(b, p)
  {
    if a == [] {
      assert a + b == b;
    } else {
      assert (a + b)[1..] == a[1..] + b;
      CountWhereConcat(a[1..], b, p);
    }
  }

  /** Counting the satisfying elements counts their positions. */
  lemma {:induction false} CountWhereIsPositions<T>(s: seq<T>, p: T -> bool)
    ensures CountWhere(s, p) == |Positions(s, p)|
  {
    if s != [] {
      var n := |s| - 1;
      CountWhereIsPositions(s[..n], p);
      PositionsSnoc(s, p);
      assert s == s[..n] + [s[n]];
      CountWhereConcat(s[..n], [s[n]], p);
      assert [s[n]][1..] == [];
    }
  }

  /** The number of occurrences of `x` in `s`. */
  function Count<T(==)>(s: seq<T>, x: T): nat {
    multiset(s)[x]
  }

  /** No element occurs twice. */
  predicate NoDup<T(==)>(s: seq<T>) {
    forall i, j :: 0 <= i < j < |s| ==> s[i] != s[j]
  }

  /** `s.filter(y => y !== x)`: every occurrence of `x` removed, everything
      else kept with its multiplicity and relative order. */
  function Without<T(==)>(s: seq<T>, x: T): (r: seq<T>)
    ensures x !in r
    ensures multiset(r) == multiset(s)[x := 0]
    ensures x !in s ==> r == s
  {
    if s == [] then []
    else
      var rest := Without(s[1..], x);
      assert s == [s[0]] + s[1..];
      if s[0] == x then rest else [s[0]] + rest
  }

  /** Removal works element by element, so it keeps relative order:
      filtering a concatenation filters each part. */
  lemma {:induction false} WithoutConcat<T>(a: seq<T>, b: seq<T>, x: T)
    ensures Without(a + b, x) == Without(a, x) + Without(b, x)
  {
    if a == [] {
      assert a + b == b;
    } else {
      assert (a + b)[1..] == a[1..] + b;
      WithoutConcat(a[1..], b, x);
    }
  }

  /** Removal keeps a duplicate-free list duplicate-free. */
  lemma {:induction false} WithoutNoDup<T>(s: seq<T>, x: T)
    requires NoDup(s)
    ensures NoDup(Without(s, x))
  {
    if s != [] {
      WithoutNoDup(s[1..], x);
      var rest := Without(s[1..], x);
      if s[0] != x {
        assert s[0] !in multiset(s[1..]);
        assert s[0] !in multiset(rest);
        assert s[0] !in rest;
      }
    }
  }
}
