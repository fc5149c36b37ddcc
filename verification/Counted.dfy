/**
 The rows a page weighs against the rows it writes, where several sources give rows of one
 table and rows are told apart by their keys. Weighing counts the first row of each key it
 meets, source by source; writing keeps every row of the first source that has the key. The two
 are the same rows exactly where that source has one row of it.
 */
module Counted {
  import opened Wrappers
  import opened Order
  import opened IntTypes
  import opened RowOrder
  import opened Merge
  import W = Weights
  import JsonBuffer

  /** The `i`th row is the first of its key. */
  ghost predicate CountedAt(sources: seq<Source>, rows: seq<Ref>, i: nat)
    requires i < |rows| && forall x :: x in rows ==> InSources(sources, x)
  {
    forall j :: 0 <= j < i ==> !Ord(sources, rows[j], rows[i]).Equal?
  }

  /** No source before it has the `i`th row's key: the merge writes it. */
  ghost predicate WrittenAt(sources: seq<Source>, rows: seq<Ref>, i: nat)
    requires i < |rows| && forall x :: x in rows ==> InSources(sources, x)
  {
    Lowest(sources, rows, rows[i])
  }

  /** Two rows of one key in its first source. */
  ghost predicate Doubled(sources: seq<Source>, rows: seq<Ref>, i: nat, j: nat)
    requires forall x :: x in rows ==> InSources(sources, x)
  {
    i < j < |rows| && rows[i].0 == rows[j].0 && Ord(sources, rows[i], rows[j]).Equal? && WrittenAt(sources, rows, j)
  }

  /** The rows come source by source. */
  ghost predicate BySource(rows: seq<Ref>) {
    forall i, j :: 0 <= i < j < |rows| ==> rows[i].0 <= rows[j].0
  }

  lemma {:induction false} GatheredBySource(runs: seq<seq<Row>>)
    ensures BySource(Gathered(runs)) && forall x :: x in Gathered(runs) ==> x.0 < |runs|
  {
    if runs != [] {
      var n := |runs| - 1;
      GatheredBySource(runs[..n]);
      var (before, own) := (Gathered(runs[..n]), OfSource(n, runs[n]));
      assert Gathered(runs) == before + own;
      assert forall i :: 0 <= i < |before| ==> before[i] in before;
    }
  }

  /** A row that counts is written. */
  lemma CountedIsWritten(sources: seq<Source>, rows: seq<Ref>, i: nat)
    requires OneShape(sources, rows) && BySource(rows) && i < |rows| && CountedAt(sources, rows, i)
    ensures WrittenAt(sources, rows, i)
  {
    hide Ord, InSources, SameShape;
    forall y | y in rows && Ord(sources, y, rows[i]).Equal? ensures y.0 >= rows[i].0 {
      var j :| 0 <= j < |rows| && rows[j] == y;
      assert j >= i;
    }
  }

  /** Every written row counts, and so exactly the written rows count, if and only if no key has two rows in the first
      source that has it. */
  lemma CountedAreWritten(sources: seq<Source>, rows: seq<Ref>)
    requires OneShape(sources, rows) && BySource(rows)
    ensures (forall i: nat :: i < |rows| ==> (CountedAt(sources, rows, i) <==> WrittenAt(sources, rows, i)))
            <==> forall i: nat, j: nat :: !Doubled(sources, rows, i, j)
  {
    hide Ord, InSources, SameShape;
    if forall i: nat, j: nat :: !Doubled(sources, rows, i, j) {
      forall i: nat | i < |rows| ensures CountedAt(sources, rows, i) <==> WrittenAt(sources, rows, i) {
        if CountedAt(sources, rows, i) {
          CountedIsWritten(sources, rows, i);
        } else {
          var j :| 0 <= j < i && Ord(sources, rows[j], rows[i]).Equal?;
          assert !Doubled(sources, rows, j, i);
        }
      }
    } else {
      var i: nat, j: nat :| Doubled(sources, rows, i, j);
      assert !CountedAt(sources, rows, j) && WrittenAt(sources, rows, j);
    }
  }

  // ----- what the merge keeps -----

  /** The first `n` rows at the chosen places. */
  ghost function Chosen(rows: seq<Ref>, at: nat -> bool, n: nat): seq<Ref>
    requires n <= |rows|
  {
    if n == 0 then [] else Chosen(rows, at, n - 1) + if at(n - 1) then [rows[n - 1]] else []
  }

  lemma {:induction false} ChosenSame(rows: seq<Ref>, p: nat -> bool, q: nat -> bool, n: nat)
    requires n <= |rows| && forall i :: 0 <= i < n ==> (p(i) <==> q(i))
    ensures Chosen(rows, p, n) == Chosen(rows, q, n)
  {
    if n > 0 {
      ChosenSame(rows, p, q, n - 1);
    }
  }

  lemma {:induction false} ChosenFewer(rows: seq<Ref>, p: nat -> bool, q: nat -> bool, n: nat)
    requires n <= |rows| && forall i :: 0 <= i < n && p(i) ==> q(i)
    ensures |Chosen(rows, p, n)| <= |Chosen(rows, q, n)|
    ensures (exists i :: 0 <= i < n && q(i) && !p(i)) ==> |Chosen(rows, p, n)| < |Chosen(rows, q, n)|
  {
    if n > 0 {
      ChosenFewer(rows, p, q, n - 1);
    }
  }

  lemma OneMore(rows: seq<Ref>, last: Ref, x: Ref)
    ensures multiset(rows + [last])[x] == multiset(rows)[x] + if x == last then 1 else 0
  {
  }

  /** Rows chosen by what they are, and not by where, are chosen as often as they are there. */
  lemma {:induction false} ChosenByRow(rows: seq<Ref>, at: nat -> bool, of: Ref -> bool, n: nat, x: Ref)
    requires n <= |rows| && forall i :: 0 <= i < n ==> (at(i) <==> of(rows[i]))
    ensures multiset(Chosen(rows, at, n))[x] == if of(x) then multiset(rows[..n])[x] else 0
  {
    if n > 0 {
      var (before, last) := (Chosen(rows, at, n - 1), rows[n - 1]);
      ChosenByRow(rows, at, of, n - 1, x);
      assert rows[..n] == rows[..n - 1] + [last];
      OneMore(rows[..n - 1], last, x);
      OneMore(before, last, x);
      assert Chosen(rows, at, n) == if at(n - 1) then before + [last] else before;
    }
  }

  ghost function Counting(sources: seq<Source>, rows: seq<Ref>): nat -> bool
    requires forall x :: x in rows ==> InSources(sources, x)
  {
    (i: nat) => i < |rows| && CountedAt(sources, rows, i)
  }

  ghost function Writing(sources: seq<Source>, rows: seq<Ref>): nat -> bool
    requires forall x :: x in rows ==> InSources(sources, x)
  {
    (i: nat) => i < |rows| && WrittenAt(sources, rows, i)
  }

  /** The rows the weight counts. */
  ghost function CountedRows(sources: seq<Source>, rows: seq<Ref>): seq<Ref>
    requires forall x :: x in rows ==> InSources(sources, x)
  {
    Chosen(rows, Counting(sources, rows), |rows|)
  }

  ghost function WrittenRows(sources: seq<Source>, rows: seq<Ref>): seq<Ref>
    requires forall x :: x in rows ==> InSources(sources, x)
  {
    Chosen(rows, Writing(sources, rows), |rows|)
  }

  /** Each row of its key's first source, as often as it is there. */
  lemma WrittenOften(sources: seq<Source>, rows: seq<Ref>, x: Ref)
    requires forall y :: y in rows ==> InSources(sources, y)
    ensures multiset(WrittenRows(sources, rows))[x]
            == if x in rows && Lowest(sources, rows, x) then multiset(rows)[x] else 0
  {
    hide InSources, Lowest;
    ChosenByRow(rows, Writing(sources, rows), (y: Ref) => y in rows && Lowest(sources, rows, y), |rows|, x);
    assert rows[..|rows|] == rows;
  }

  /** The merge writes exactly those. */
  lemma MergeWrites(sources: seq<Source>, rows: seq<Ref>, merge: seq<Ref>)
    requires OneShape(sources, rows) && SortedAndKept(sources, rows, merge)
    ensures multiset(merge) == multiset(WrittenRows(sources, rows))
  {
    hide Ord, InSources, SameShape, Kept, Sorted, Lowest, Chosen;
    var sorted :| IsSorted(sources, rows, sorted) && merge == Kept(sources, sorted);
    KeptMerged(sources, rows, sorted);
    forall x ensures multiset(merge)[x] == multiset(WrittenRows(sources, rows))[x] {
      WrittenOften(sources, rows, x);
      assert x !in rows ==> x !in merge;
    }
  }

  /** Of the rows gathered for a block, those the merge writes are those the weight counts, if and only if no key has
      two rows in the first source that has it. */
  lemma MergedAreCounted(sources: seq<Source>, runs: seq<seq<Row>>, merge: seq<Ref>)
    requires OneShape(sources, Gathered(runs)) && SortedAndKept(sources, Gathered(runs), merge)
    ensures multiset(merge) == multiset(CountedRows(sources, Gathered(runs)))
            <==> forall i: nat, j: nat :: !Doubled(sources, Gathered(runs), i, j)
  {
    hide Ord, InSources, SameShape, SortedAndKept, CountedAt, WrittenAt, Gathered, BySource, Chosen, Doubled;
    var rows := Gathered(runs);
    GatheredBySource(runs);
    MergeWrites(sources, rows, merge);
    CountedAreWritten(sources, rows);
    var (counted, written) := (Counting(sources, rows), Writing(sources, rows));
    if forall i: nat :: i < |rows| ==> (CountedAt(sources, rows, i) <==> WrittenAt(sources, rows, i)) {
      ChosenSame(rows, counted, written, |rows|);
    } else {
      forall i: nat | i < |rows| && counted(i) ensures written(i) {
        CountedIsWritten(sources, rows, i);
      }
      var i: nat :| i < |rows| && !(CountedAt(sources, rows, i) <==> WrittenAt(sources, rows, i));
      assert written(i) && !counted(i);
      ChosenFewer(rows, counted, written, |rows|);
      assert |multiset(merge)| == |WrittenRows(sources, rows)|;
    }
  }

  /** Rows as the weight sees them: one identity for one key. */
  ghost predicate Identify(sources: seq<Source>, rows: seq<Ref>, weighed: seq<W.Row>)
    requires forall x :: x in rows ==> InSources(sources, x)
  {
    |weighed| == |rows| && forall i, j :: 0 <= i < |rows| && 0 <= j < |rows| ==>
      (weighed[i].identity == weighed[j].identity <==> Ord(sources, rows[i], rows[j]).Equal?)
  }

  /** The rows that count are those the weight adds up. */
  lemma CountsAreCounted(sources: seq<Source>, rows: seq<Ref>, weighed: seq<W.Row>, i: nat)
    requires (forall x :: x in rows ==> InSources(sources, x)) && Identify(sources, rows, weighed) && i < |rows|
    ensures W.Counts(true, weighed[..i], weighed[i]) <==> CountedAt(sources, rows, i)
  {
    hide Ord, InSources;
    var before := weighed[..i];
    if weighed[i].identity in W.Identities(before) {
      var row :| row in before && row.identity == weighed[i].identity;
      var j :| 0 <= j < |before| && before[j] == row;
      assert weighed[j] == row;
      assert Ord(sources, rows[j], rows[i]).Equal?;
    }
    if !CountedAt(sources, rows, i) {
      var j :| 0 <= j < i && Ord(sources, rows[j], rows[i]).Equal?;
      assert before[j] == weighed[j] && before[j] in before;
    }
  }

  /** One source with two rows of the key 7. */
  function Twice(render: Row -> JsonBuffer.Item): seq<Source> {
    [Source([Batch(2, [Some(Ints(StoredInts(IntType(8, false), [7, 7])))])], render)]
  }

  /** Two rows of one key in one source: both are written and one counts. */
  lemma DoubledKeyOvershoots(render: Row -> JsonBuffer.Item)
    ensures var rows: seq<Ref> := [(0, 0, 0), (0, 0, 1)];
            var sources := Twice(render);
            && OneShape(sources, rows) && BySource(rows)
            && WrittenAt(sources, rows, 0) && WrittenAt(sources, rows, 1)
            && CountedAt(sources, rows, 0) && !CountedAt(sources, rows, 1)
  {
    WidthBounds();
    hide Order.Bound;
    var sources, rows: seq<Ref> := Twice(render), [(0, 0, 0), (0, 0, 1)];
    assert sources[0].batches[0].columns[0].value.Valid(2);
    forall x | x in rows ensures InSources(sources, x) && KeysAt(sources, x) == [IntKey(7)] {
    }
    assert Ord(sources, rows[0], rows[1]) == CompareKeys([IntKey(7)], [IntKey(7)]) == Equal;
  }
}
