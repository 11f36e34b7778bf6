/** The board's two columns: the open chores and the recently done ones,
    each a filter of the chore list by completion. */
module Board {
  import opened Chores

  /** The chores whose completion flag equals `done`, in list order. */
  function Column(cs: seq<Chore>, done: bool): (r: seq<Chore>)
    ensures |r| <= |cs|
    ensures forall i :: 0 <= i < |r| ==> r[i].row.isCompleted == done
  {
    if cs == [] then []
    else
      (if cs[0].row.isCompleted == done then [cs[0]] else []) + Column(cs[1..], done)
  }

  /** "Open Chores": `chores.filter(chore => !chore.isCompleted)`. */
  function OpenChores(cs: seq<Chore>): (r: seq<Chore>)
    ensures forall i :: 0 <= i < |r| ==> !r[i].row.isCompleted
  {
    Column(cs, false)
  }

  /** "Recently Done": `chores.filter(chore => chore.isCompleted)`. */
  function DoneChores(cs: seq<Chore>): (r: seq<Chore>)
    ensures forall i :: 0 <= i < |r| ==> r[i].row.isCompleted
  {
    Column(cs, true)
  }

  /** The two columns split the list: together they hold every chore
      exactly as often as the list does. */
  lemma {:induction false} ColumnsPartition(cs: seq<Chore>)
    ensures multiset(OpenChores(cs)) + multiset(DoneChores(cs)) == multiset(cs)
    ensures |OpenChores(cs)| + |DoneChores(cs)| == |cs|
  {
    if cs != [] {
      var c := cs[0];
      ColumnsPartition(cs[1..]);
      assert cs == [c] + cs[1..];
      assert OpenChores(cs) == (if !c.row.isCompleted then [c] else []) + OpenChores(cs[1..]);
      assert DoneChores(cs) == (if c.row.isCompleted then [c] else []) + DoneChores(cs[1..]);
    }
  }

  /** Each column keeps the list's order: filtering a concatenation
      concatenates the filtered parts. */
  lemma {:induction false} ColumnConcat(a: seq<Chore>, b: seq<Chore>, done: bool)
    ensures Column(a + b, done) == Column(a, done) + Column(b, done)
  {
    if a != [] {
      assert (a + b)[1..] == a[1..] + b;
      ColumnConcat(a[1..], b, done);
    } else {
      assert a + b == b;
    }
  }

  /** A chore appears in exactly one column, the one its flag names, so
      toggling it moves it across. */
  lemma ExactlyOneColumn(cs: seq<Chore>, i: nat)
    requires i < |cs|
    ensures cs[i].row.isCompleted ==> cs[i] in DoneChores(cs) && cs[i] !in OpenChores(cs)
    ensures !cs[i].row.isCompleted ==> cs[i] in OpenChores(cs) && cs[i] !in DoneChores(cs)
  {
    ColumnsPartition(cs);
    assert cs[i] in multiset(cs);
  }
}
