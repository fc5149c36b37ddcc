/**
 Items of several sources merged into one array: sorted by key and then by source and file
 order, then deduplicated in place. What is left of each key is every row of the first source
 that has it, and no row of another.
 */
module Merge {
  import opened Order
  import opened RowOrder
  import opened RowLayers
  import opened JsonBuffer

  /** A row of a source: the source, its batch, and the row there. */
  type Ref = (nat, nat, nat)

  /** A source of one table: its batches, and what each row renders as. */
  datatype Source = Source(batches: seq<Batch>, render: Row -> Item)

  function RowOf(ref: Ref): Row {
    (ref.1, ref.2)
  }

  predicate InSources(sources: seq<Source>, ref: Ref) {
    ref.0 < |sources| && InBatches(sources[ref.0].batches, RowOf(ref))
  }

  function KeysAt(sources: seq<Source>, ref: Ref): seq<Key>
    requires InSources(sources, ref)
  {
    KeysOf(sources[ref.0].batches, RowOf(ref))
  }

  /** Two rows by key alone. */
  function Ord(sources: seq<Source>, a: Ref, b: Ref): Ordering
    requires InSources(sources, a) && InSources(sources, b)
  {
    CompareKeys(KeysAt(sources, a), KeysAt(sources, b))
  }

  function CompareRefs(a: Ref, b: Ref): Ordering {
    CompareInts(a.0, b.0).Then(CompareInts(a.1, b.1).Then(CompareInts(a.2, b.2)))
  }

  /** Every row has keys of one shape, in every source. */
  ghost predicate OneShape(sources: seq<Source>, rows: seq<Ref>) {
    && (forall x :: x in rows ==> InSources(sources, x))
    && forall x, y :: x in rows && y in rows ==> SameShape(KeysAt(sources, x), KeysAt(sources, y))
  }

  function RefLeq(sources: seq<Source>): (Ref, Ref) -> bool {
    (a, b) => InSources(sources, a) && InSources(sources, b) && !Ord(sources, a, b).Then(CompareRefs(a, b)).Greater?
  }

  /** Rows of one shape have an order for the merge to sort by. */
  lemma RefsOrdered(sources: seq<Source>, rows: seq<Ref>)
    requires OneShape(sources, rows)
    ensures Orders(RefLeq(sources), rows)
  {
    hide CompareKeys, KeysAt, SameShape, InSources;
    var leq := RefLeq(sources);
    forall x, y | x in rows && y in rows ensures leq(x, y) || leq(y, x) {
      KeysReversed(KeysAt(sources, x), KeysAt(sources, y));
    }
    forall x, y, z | x in rows && y in rows && z in rows && leq(x, y) && leq(y, z) ensures leq(x, z) {
      KeysTransitive(KeysAt(sources, x), KeysAt(sources, y), KeysAt(sources, z));
    }
  }

  /** No row of the same key is of an earlier source. */
  ghost predicate Lowest(sources: seq<Source>, rows: seq<Ref>, x: Ref)
    requires InSources(sources, x) && forall y :: y in rows ==> InSources(sources, y)
  {
    forall y :: y in rows && Ord(sources, y, x).Equal? ==> y.0 >= x.0
  }

  predicate Repeats(sources: seq<Source>, last: Ref, x: Ref)
    requires InSources(sources, last) && InSources(sources, x)
  {
    last.0 != x.0 && Ord(sources, last, x).Equal?
  }

  /** Each row but those that repeat the key of the last one kept, from another source. */
  function Kept(sources: seq<Source>, rows: seq<Ref>): (kept: seq<Ref>)
    requires forall x :: x in rows ==> InSources(sources, x)
    ensures |kept| <= |rows| && (rows != [] ==> kept != [])
    ensures forall x :: x in kept ==> x in rows
  {
    if rows == [] then []
    else
      var (before, x) := (Kept(sources, rows[..|rows| - 1]), rows[|rows| - 1]);
      if before != [] && Repeats(sources, before[|before| - 1], x) then before else before + [x]
  }

  // ----- what is kept -----

  /** How often `x` is kept: as often as it is there where it is its key's lowest, and otherwise never. */
  ghost predicate KeptRight(sources: seq<Source>, rows: seq<Ref>, kept: seq<Ref>)
    requires forall x :: x in rows ==> InSources(sources, x)
  {
    forall x :: x in rows ==> multiset(kept)[x] == if Lowest(sources, rows, x) then multiset(rows)[x] else 0
  }

  lemma OrdFacts(sources: seq<Source>, rows: seq<Ref>, a: Ref, b: Ref, c: Ref)
    requires OneShape(sources, rows) && a in rows && b in rows && c in rows
    ensures Ord(sources, b, a) == Ord(sources, a, b).Reverse()
    ensures Ord(sources, a, b).Equal? ==>
              Ord(sources, a, c) == Ord(sources, b, c) && Ord(sources, c, a) == Ord(sources, c, b)
  {
    hide CompareKeys, KeysAt, SameShape, InSources;
    var (x, y, z) := (KeysAt(sources, a), KeysAt(sources, b), KeysAt(sources, c));
    KeysReversed(x, y);
    KeysReversed(y, z);
    KeysReversed(x, z);
    if CompareKeys(x, y).Equal? {
      if !CompareKeys(y, z).Greater? {
        KeysTransitive(x, y, z);
      }
      if !CompareKeys(x, z).Greater? {
        KeysTransitive(y, x, z);
      }
    }
  }

  /** The last row kept has the last row's key, and is the lowest that does. */
  lemma {:induction false} KeptLowest(sources: seq<Source>, rows: seq<Ref>)
    requires OneShape(sources, rows) && Sorted(rows, RefLeq(sources))
    ensures KeptRight(sources, rows, Kept(sources, rows))
    ensures rows != [] ==>
              var last := Kept(sources, rows)[|Kept(sources, rows)| - 1];
              Ord(sources, last, rows[|rows| - 1]).Equal? && Lowest(sources, rows, last)
  {
    if rows != [] {
      var (before, x) := (rows[..|rows| - 1], rows[|rows| - 1]);
      assert rows == before + [x];
      ShapeKept(sources, before, x, rows);
      PrefixSorted(sources, rows);
      KeptLowest(sources, before);
      hide *;
      KeptStep(sources, before, x, rows);
    }
  }

  lemma ShapeKept(sources: seq<Source>, before: seq<Ref>, x: Ref, rows: seq<Ref>)
    requires rows == before + [x] && OneShape(sources, rows)
    ensures OneShape(sources, before)
    ensures InSources(sources, x) && forall y :: y in before ==> InSources(sources, y)
  {
    hide SameShape, KeysAt, InSources;
  }

  lemma PrefixSorted(sources: seq<Source>, rows: seq<Ref>)
    requires rows != [] && Sorted(rows, RefLeq(sources))
    ensures Sorted(rows[..|rows| - 1], RefLeq(sources))
  {
  }

  /** A row sorted last, after those kept right. */
  lemma KeptStep(sources: seq<Source>, before: seq<Ref>, x: Ref, rows: seq<Ref>)
    requires rows == before + [x] && OneShape(sources, rows) && OneShape(sources, before)
             && Sorted(rows, RefLeq(sources))
    requires KeptRight(sources, before, Kept(sources, before))
    requires before != [] ==>
               var last := Kept(sources, before)[|Kept(sources, before)| - 1];
               Ord(sources, last, before[|before| - 1]).Equal? && Lowest(sources, before, last)
    ensures KeptRight(sources, rows, Kept(sources, rows))
    ensures var last := Kept(sources, rows)[|Kept(sources, rows)| - 1];
            Ord(sources, last, x).Equal? && Lowest(sources, rows, last)
  {
    KeptUnfolds(sources, before, x, rows);
    LastStep(sources, before, x, rows, Kept(sources, before), Kept(sources, rows));
    hide *;
    AllKept(sources, before, x, rows, Kept(sources, before), Kept(sources, rows));
  }

  /** The last row kept once `x` is looked at. */
  lemma LastStep(sources: seq<Source>, before: seq<Ref>, x: Ref, rows: seq<Ref>, kept: seq<Ref>, now: seq<Ref>)
    requires rows == before + [x] && OneShape(sources, rows) && Sorted(rows, RefLeq(sources))
    requires InSources(sources, x) && forall y :: y in before ==> InSources(sources, y)
    requires (kept == [] <==> before == []) && (kept != [] ==> kept[|kept| - 1] in before)
    requires now == if kept != [] && Repeats(sources, kept[|kept| - 1], x) then kept else kept + [x]
    requires before != [] ==>
               Ord(sources, kept[|kept| - 1], before[|before| - 1]).Equal? && Lowest(sources, before, kept[|kept| - 1])
    ensures now == if Lowest(sources, rows, x) then kept + [x] else kept
    ensures now != [] && now[|now| - 1] in rows
    ensures Ord(sources, now[|now| - 1], x).Equal? && Lowest(sources, rows, now[|now| - 1])
  {
    hide Ord, InSources, SameShape, Sorted;
    OrdFacts(sources, rows, x, x, x);
    if before == [] {
      assert rows == [x];
    } else {
      LastLowest(sources, before, x, rows, kept[|kept| - 1]);
    }
  }

  lemma KeptUnfolds(sources: seq<Source>, before: seq<Ref>, x: Ref, rows: seq<Ref>)
    requires rows == before + [x] && forall y :: y in rows ==> InSources(sources, y)
    ensures forall y :: y in before ==> y in rows
    ensures var kept := Kept(sources, before);
            && (kept == [] <==> before == [])
            && (kept != [] ==> kept[|kept| - 1] in before)
            && Kept(sources, rows) == if kept != [] && Repeats(sources, kept[|kept| - 1], x) then kept else kept + [x]
  {
    hide InSources, Repeats;
    assert rows[..|rows| - 1] == before;
    var kept := Kept(sources, before);
    assert kept != [] ==> kept[|kept| - 1] in kept;
  }

  lemma AllKept(sources: seq<Source>, before: seq<Ref>, x: Ref, rows: seq<Ref>, kept: seq<Ref>, now: seq<Ref>)
    requires rows == before + [x] && OneShape(sources, rows) && Sorted(rows, RefLeq(sources))
    requires forall y :: y in before ==> InSources(sources, y)
    requires KeptRight(sources, before, kept) && forall y :: y in kept ==> y in before
    requires now == if Lowest(sources, rows, x) then kept + [x] else kept
    ensures KeptRight(sources, rows, now)
  {
    hide Ord, InSources, SameShape, Lowest, Sorted;
    forall y | y in rows ensures multiset(now)[y] == if Lowest(sources, rows, y) then multiset(rows)[y] else 0 {
      assert multiset(rows)[y] == multiset(before)[y] + if y == x then 1 else 0;
      if y in before {
        StillLowest(sources, before, x, rows, y);
      } else {
        assert y !in kept;
      }
    }
  }

  /** A later row leaves those before it as low as they were. */
  lemma StillLowest(sources: seq<Source>, before: seq<Ref>, x: Ref, rows: seq<Ref>, y: Ref)
    requires rows == before + [x] && OneShape(sources, rows) && Sorted(rows, RefLeq(sources)) && y in before
    ensures InSources(sources, y) && forall z :: z in before ==> InSources(sources, z)
    ensures Lowest(sources, rows, y) <==> Lowest(sources, before, y)
  {
    hide Ord, InSources, SameShape;
    NotAfter(sources, before, x, rows);
    assert forall z :: z in rows <==> z in before || z == x;
    OrdFacts(sources, rows, x, y, x);
  }

  /** The new row is its key's lowest just when it does not repeat the last one kept. */
  lemma LastLowest(sources: seq<Source>, before: seq<Ref>, x: Ref, rows: seq<Ref>, last: Ref)
    requires rows == before + [x] && before != [] && OneShape(sources, rows) && Sorted(rows, RefLeq(sources))
             && last in before
    requires InSources(sources, last) && InSources(sources, x) && forall z :: z in before ==> InSources(sources, z)
    requires Ord(sources, last, before[|before| - 1]).Equal? && Lowest(sources, before, last)
    ensures Lowest(sources, rows, x) <==> !Repeats(sources, last, x)
    ensures Repeats(sources, last, x) ==> Lowest(sources, rows, last)
  {
    hide Ord, InSources, SameShape;
    NotAfter(sources, before, x, rows);
    assert forall z :: z in rows <==> z in before || z == x;
    OrdFacts(sources, rows, last, x, last);
    if !Repeats(sources, last, x) {
      forall y | y in before && Ord(sources, y, x).Equal? ensures y.0 >= x.0 {
        Between(sources, before, x, rows, y);
        var b := before[|before| - 1];
        OrdFacts(sources, rows, last, b, x);
        OrdFacts(sources, rows, y, x, last);
        OrdFacts(sources, rows, x, last, y);
      }
    }
  }

  /** What sorts between two rows of one key has it too. */
  lemma Between(sources: seq<Source>, before: seq<Ref>, x: Ref, rows: seq<Ref>, y: Ref)
    requires rows == before + [x] && before != [] && OneShape(sources, rows) && Sorted(rows, RefLeq(sources))
             && y in before
    requires InSources(sources, y) && InSources(sources, x) && InSources(sources, before[|before| - 1])
    requires Ord(sources, y, x).Equal?
    ensures Ord(sources, before[|before| - 1], x).Equal?
  {
    hide Ord, SameShape;
    var b := before[|before| - 1];
    assert b in rows && y in rows && x in rows;
    NotAfter(sources, before, x, rows);
    var i :| 0 <= i < |before| && before[i] == y;
    if i < |before| - 1 {
      assert RefLeq(sources)(rows[i], rows[|before| - 1]);
    }
    OrdFacts(sources, rows, y, x, b);
    OrdFacts(sources, rows, b, x, b);
    OrdFacts(sources, rows, y, b, y);
  }

  /** Rows sorted before `x` have a lesser key, or its key and no later source. */
  lemma NotAfter(sources: seq<Source>, before: seq<Ref>, x: Ref, rows: seq<Ref>)
    requires rows == before + [x] && OneShape(sources, rows) && Sorted(rows, RefLeq(sources))
    ensures forall y :: y in before ==> y in rows && InSources(sources, y) && InSources(sources, x)
    ensures forall y :: y in before ==> !Ord(sources, y, x).Greater? && (Ord(sources, y, x).Equal? ==> y.0 <= x.0)
  {
    hide Ord, SameShape;
    forall y | y in before
      ensures y in rows && !Ord(sources, y, x).Greater? && (Ord(sources, y, x).Equal? ==> y.0 <= x.0)
    {
      var i :| 0 <= i < |before| && before[i] == y;
      assert rows[i] == y && rows[|rows| - 1] == x;
      assert RefLeq(sources)(rows[i], rows[|rows| - 1]);
    }
  }

  // ----- the merge in place -----

  /** Every row of the block, source by source. */
  function Gathered(runs: seq<seq<Row>>): seq<Ref> {
    if runs == [] then []
    else
      var n := |runs| - 1;
      Gathered(runs[..n]) + OfSource(n, runs[n])
  }

  function OfSource(source: nat, rows: seq<Row>): (refs: seq<Ref>)
    ensures |refs| == |rows|
  {
    seq(|rows|, i requires 0 <= i < |rows| => (source, rows[i].0, rows[i].1))
  }

  /** Of each key, all rows of the first source that has it and none of another, sorted by key and then by file
      order. */
  ghost predicate Merged(sources: seq<Source>, rows: seq<Ref>, merged: seq<Ref>)
    requires forall x :: x in rows ==> InSources(sources, x)
  {
    && Sorted(merged, RefLeq(sources))
    && (forall x :: x in merged ==> x in rows)
    && KeptRight(sources, rows, merged)
  }

  lemma KeptMerged(sources: seq<Source>, rows: seq<Ref>, sorted: seq<Ref>)
    requires OneShape(sources, rows) && Sorted(sorted, RefLeq(sources)) && multiset(sorted) == multiset(rows)
    ensures forall x :: x in sorted ==> InSources(sources, x)
    ensures Merged(sources, rows, Kept(sources, sorted))
  {
    hide Ord, InSources, SameShape, KeysAt, Sorted, RefLeq;
    SameElements(sorted, rows);
    assert OneShape(sources, sorted);
    KeptLowest(sources, sorted);
    KeptSorted(sources, sorted);
    hide Kept;
    forall x | x in rows
      ensures multiset(Kept(sources, sorted))[x] == if Lowest(sources, rows, x) then multiset(rows)[x] else 0
    {
      assert x in sorted;
      assert Lowest(sources, rows, x) <==> Lowest(sources, sorted, x);
    }
  }

  lemma {:induction false} KeptSorted(sources: seq<Source>, rows: seq<Ref>)
    requires Sorted(rows, RefLeq(sources)) && forall x :: x in rows ==> InSources(sources, x)
    ensures Sorted(Kept(sources, rows), RefLeq(sources))
  {
    hide InSources, RefLeq;
    if rows != [] {
      var (before, x) := (rows[..|rows| - 1], rows[|rows| - 1]);
      PrefixSorted(sources, rows);
      KeptSorted(sources, before);
      var (kept, leq) := (Kept(sources, before), RefLeq(sources));
      forall i | 0 <= i < |kept| ensures leq(kept[i], x) {
        assert kept[i] in kept;
        var k :| 0 <= k < |before| && before[k] == kept[i];
        assert leq(rows[k], rows[|rows| - 1]);
      }
    }
  }

  ghost predicate IsSorted(sources: seq<Source>, rows: seq<Ref>, sorted: seq<Ref>) {
    Sorted(sorted, RefLeq(sources)) && multiset(sorted) == multiset(rows)
    && forall x :: x in sorted ==> InSources(sources, x)
  }

  /** What is kept of the rows, sorted by key and then by source and file order: there is one such order. */
  ghost predicate SortedAndKept(sources: seq<Source>, rows: seq<Ref>, merged: seq<Ref>) {
    exists sorted :: IsSorted(sources, rows, sorted) && merged == Kept(sources, sorted)
  }

  lemma SortedKept(sources: seq<Source>, rows: seq<Ref>, sorted: seq<Ref>)
    requires IsSorted(sources, rows, sorted)
    ensures SortedAndKept(sources, rows, Kept(sources, sorted))
  {
    hide IsSorted;
  }

  /** Two sorts of the same rows are the same, so what is kept of them is too. */
  lemma KeptOneWay(sources: seq<Source>, rows: seq<Ref>, a: seq<Ref>, b: seq<Ref>)
    requires SortedAndKept(sources, rows, a) && SortedAndKept(sources, rows, b)
    ensures a == b
  {
    hide InSources, KeysAt, CompareKeys, Sorted, Kept;
    var x :| IsSorted(sources, rows, x) && a == Kept(sources, x);
    var y :| IsSorted(sources, rows, y) && b == Kept(sources, y);
    forall p, q | p in x && q in x && RefLeq(sources)(p, q) && RefLeq(sources)(q, p) ensures p == q {
      KeysReversed(KeysAt(sources, p), KeysAt(sources, q));
    }
    SortedUnique(x, y, RefLeq(sources));
  }

  // ----- all sources' batches as one -----

  /** The sources' batches one after the other. */
  function Flat(sources: seq<Source>): seq<Batch> {
    if sources == [] then [] else Flat(sources[..|sources| - 1]) + sources[|sources| - 1].batches
  }

  /** A row's batch among them all, and its place there. */
  function FlatRow(sources: seq<Source>, x: Ref): Row
    requires x.0 < |sources|
  {
    (|Flat(sources[..x.0])| + x.1, x.2)
  }

  lemma {:induction false} FlatPrefix(sources: seq<Source>, n: nat)
    requires n <= |sources|
    ensures Flat(sources[..n]) <= Flat(sources)
    decreases |sources| - n
  {
    if n == |sources| {
      assert sources[..n] == sources;
    } else {
      FlatPrefix(sources, n + 1);
      assert sources[..n + 1][..n] == sources[..n];
    }
  }

  lemma FlatBatch(sources: seq<Source>, x: Ref)
    requires x.0 < |sources| && x.1 < |sources[x.0].batches|
    ensures FlatRow(sources, x).0 < |Flat(sources[..x.0 + 1])| <= |Flat(sources)|
    ensures Flat(sources)[FlatRow(sources, x).0] == sources[x.0].batches[x.1]
  {
    FlatPrefix(sources, x.0 + 1);
    var now := sources[..x.0 + 1];
    assert now[..x.0] == sources[..x.0] && now[x.0] == sources[x.0];
    assert Flat(now) == Flat(sources[..x.0]) + sources[x.0].batches;
    assert Flat(now)[FlatRow(sources, x).0] == sources[x.0].batches[x.1];
  }

  /** Rows of earlier sources come first among them all. */
  lemma FlatFile(sources: seq<Source>, x: Ref, y: Ref)
    requires InSources(sources, x) && InSources(sources, y)
    ensures CompareFile(FlatRow(sources, x), FlatRow(sources, y)) == CompareRefs(x, y)
  {
    FlatBatch(sources, x);
    FlatBatch(sources, y);
    if x.0 < y.0 {
      FlatPrefix(sources[..y.0], x.0 + 1);
      assert sources[..y.0][..x.0 + 1] == sources[..x.0 + 1];
    } else if y.0 < x.0 {
      FlatPrefix(sources[..x.0], y.0 + 1);
      assert sources[..x.0][..y.0 + 1] == sources[..y.0 + 1];
    }
  }

  /** Merging sources compares their rows as if they were rows of one source with all the batches. */
  lemma FlatLeq(sources: seq<Source>, x: Ref, y: Ref)
    requires InSources(sources, x) && InSources(sources, y)
    ensures InBatches(Flat(sources), FlatRow(sources, x)) && InBatches(Flat(sources), FlatRow(sources, y))
    ensures RefLeq(sources)(x, y) == RowLeq(Flat(sources))(FlatRow(sources, x), FlatRow(sources, y))
  {
    hide CompareKeys, Flat, Batch.Valid, CompareRefs, CompareFile;
    FlatBatch(sources, x);
    FlatBatch(sources, y);
    FlatFile(sources, x, y);
  }

  /** So where those batches are layered, the merge has an order to sort by. */
  lemma RefsLayered(sources: seq<Source>, shapes: seq<seq<Shape>>, width: nat, rows: seq<Ref>)
    requires HasShapes(Flat(sources), shapes, width) && Layered(shapes)
             && forall x :: x in rows ==> InSources(sources, x)
    ensures Orders(RefLeq(sources), rows)
  {
    hide HasShapes, Layered, InSources, RefLeq, RowLeq, InBatches, FlatRow, Flat;
    forall x, y, z | x in rows && y in rows && z in rows
      ensures RefLeq(sources)(x, y) || RefLeq(sources)(y, x)
      ensures RefLeq(sources)(x, y) && RefLeq(sources)(y, z) ==> RefLeq(sources)(x, z)
    {
      FlatLeq(sources, x, y);
      FlatLeq(sources, y, x);
      FlatLeq(sources, y, z);
      FlatLeq(sources, x, z);
      var flat := [FlatRowOf(sources, x), FlatRowOf(sources, y), FlatRowOf(sources, z)];
      LayeredOrders(Flat(sources), shapes, width, flat);
      Total(RowLeq(Flat(sources)), flat, flat[0], flat[1]);
      if RefLeq(sources)(x, y) && RefLeq(sources)(y, z) {
        Transitive(RowLeq(Flat(sources)), flat, flat[0], flat[1], flat[2]);
      }
    }
  }

  function FlatRowOf(sources: seq<Source>, x: Ref): (row: Row)
    requires InSources(sources, x)
    ensures row == FlatRow(sources, x)
  {
    FlatRow(sources, x)
  }

  // ----- the merge in place, row by row -----

  /** Of the first `read` rows, those kept are the first `write` places; the rows after them are where they were. */
  ghost predicate Deduped(sources: seq<Source>, rows: seq<Ref>, merge: seq<Ref>, write: nat, read: nat) {
    && (forall x :: x in rows ==> InSources(sources, x))
    && |merge| == |rows| && write <= read <= |rows|
    && (forall x :: x in rows[..read] ==> InSources(sources, x))
    && merge[..write] == Kept(sources, rows[..read])
    && merge[read..] == rows[read..]
  }

  lemma NothingDeduped(sources: seq<Source>, rows: seq<Ref>)
    requires forall x :: x in rows ==> InSources(sources, x)
    ensures Deduped(sources, rows, rows, 0, 0)
  {
  }

  lemma AllDeduped(sources: seq<Source>, rows: seq<Ref>, merge: seq<Ref>, write: nat)
    requires Deduped(sources, rows, merge, write, |rows|)
    ensures forall x :: x in rows ==> InSources(sources, x)
    ensures write <= |merge| && merge[..write] == Kept(sources, rows)
  {
    assert rows[..|rows|] == rows;
  }

  lemma DedupStep(sources: seq<Source>, rows: seq<Ref>, merge: seq<Ref>, write: nat, read: nat)
    requires Deduped(sources, rows, merge, write, read) && read < |rows|
    ensures write <= read < |merge| && InSources(sources, merge[read])
            && (write > 0 ==> InSources(sources, merge[write - 1]))
    ensures if write > 0 && Repeats(sources, merge[write - 1], merge[read])
            then Deduped(sources, rows, merge, write, read + 1)
            else Deduped(sources, rows, merge[write := merge[read]], write + 1, read + 1)
  {
    hide InSources, Repeats, Kept;
    var (before, x, now) := (rows[..read], rows[read], rows[..read + 1]);
    assert merge[read] == merge[read..][0] == x;
    assert now == before + [x] && x in rows;
    forall y | y in now ensures y in rows {
    }
    KeptUnfolds(sources, before, x, now);
    assert write > 0 ==> merge[write - 1] == merge[..write][write - 1];
    assert merge[read + 1..] == merge[read..][1..] && rows[read + 1..] == rows[read..][1..];
    var moved := merge[write := merge[read]];
    assert moved[..write + 1] == merge[..write] + [x];
    assert moved[read + 1..] == merge[read + 1..];
  }

  /** Row references reused from block to block. */
  class RowScratch {
    var merge: seq<Ref>

    constructor ()
      ensures merge == []
    {
      merge := [];
    }

    method Gather(runs: seq<seq<Row>>)
      modifies this
      ensures merge == Gathered(runs)
    {
      merge := [];
      for si := 0 to |runs|
        invariant merge == Gathered(runs[..si])
      {
        assert runs[..si + 1][..si] == runs[..si];
        merge := merge + OfSource(si, runs[si]);
      }
      assert runs[..|runs|] == runs;
    }

    /** Moves each row that stays to the next place, and cuts off the rest. */
    method Dedup(sources: seq<Source>)
      requires forall x :: x in merge ==> InSources(sources, x)
      modifies this
      ensures merge == Kept(sources, old(merge))
    {
      hide InSources, Repeats, Deduped;
      ghost var rows := merge;
      var write := 0;
      NothingDeduped(sources, rows);
      for read := 0 to |merge|
        invariant Deduped(sources, rows, merge, write, read)
      {
        DedupStep(sources, rows, merge, write, read);
        if write == 0 || !Repeats(sources, merge[write - 1], merge[read]) {
          merge := merge[write := merge[read]];
          write := write + 1;
        }
      }
      AllDeduped(sources, rows, merge, write);
      merge := merge[..write];
    }

    /** The rows of one block from every source, sorted and freed of what another source repeats. The sort asks that
        the comparison orders the rows, as it does rows of one shape (`RefsOrdered`) and of layered batches
        (`RefsLayered`). */
    method MergeRows(sources: seq<Source>, runs: seq<seq<Row>>, keyed: bool)
      requires forall x :: x in Gathered(runs) ==> InSources(sources, x)
      requires keyed ==> Orders(RefLeq(sources), Gathered(runs))
      modifies this
      ensures !keyed ==> merge == Gathered(runs)
      ensures keyed ==> SortedAndKept(sources, Gathered(runs), merge)
      ensures keyed && OneShape(sources, Gathered(runs)) ==> Merged(sources, Gathered(runs), merge)
    {
      hide OneShape, Sorted, RefLeq, Kept, KeptRight, InSources, Gathered, Orders;
      Gather(runs);
      if merge == [] {
        NothingMerged(sources, merge);
        return;
      }
      if keyed {
        var sorted := Sort(merge, RefLeq(sources));
        SameElements(sorted, merge);
        if OneShape(sources, merge) {
          KeptMerged(sources, merge, sorted);
        }
        SortedKept(sources, merge, sorted);
        merge := sorted;
        Dedup(sources);
      }
    }
  }

  lemma NothingMerged(sources: seq<Source>, rows: seq<Ref>)
    requires rows == []
    ensures Merged(sources, rows, rows) && SortedAndKept(sources, rows, rows)
  {
    assert IsSorted(sources, rows, rows);
  }

  /** What each merged row renders as, in order. */
  function Items(sources: seq<Source>, rows: seq<Ref>): (items: seq<Item>)
    requires forall x :: x in rows ==> InSources(sources, x)
    ensures |items| == |rows|
  {
    seq(|rows|, i requires 0 <= i < |rows| && InSources(sources, rows[i]) => sources[rows[i].0].render(RowOf(rows[i])))
  }

  /** Writes one block's items of several sources as one array. */
  method WriteMergedItems(buffer: Buffer, prefix: Bytes, sources: seq<Source>, runs: seq<seq<Row>>, keyed: bool,
                          scratch: RowScratch)
    requires forall x :: x in Gathered(runs) ==> InSources(sources, x)
    requires keyed ==> Orders(RefLeq(sources), Gathered(runs))
    modifies buffer, scratch
    ensures if keyed then SortedAndKept(sources, Gathered(runs), scratch.merge) else scratch.merge == Gathered(runs)
    ensures keyed && OneShape(sources, Gathered(runs)) ==> Merged(sources, Gathered(runs), scratch.merge)
    ensures forall x :: x in scratch.merge ==> InSources(sources, x)
    ensures buffer.bytes
            == old(buffer.bytes)
               + if scratch.merge == [] then []
                 else prefix + Join(Rendered(Items(sources, scratch.merge))) + [CLOSE_BRACKET, COMMA]
  {
    hide OneShape, Sorted, RefLeq, KeptRight, InSources, Gathered, Rendered, Join, Orders;
    scratch.MergeRows(sources, runs, keyed);
    if scratch.merge == [] {
      return;
    }
    var items := Items(sources, scratch.merge);
    buffer.WriteItems(prefix, items);
  }
}
