/**
 A source made ready to write: its rows indexed by block, and each block's rows sorted by their
 keys and then by file order.
 */
module PreparedSources {
  import opened Wrappers
  import opened Order
  import opened BlockIndex
  import Keys = RowOrder
  import Sorting = RowSort
  import Layers = RowLayers

  /** Each batch's block-number column numbers its rows. */
  ghost predicate Numbers(blocks: seq<Column>, batches: seq<Keys.Batch>) {
    |blocks| == |batches| && forall i :: 0 <= i < |blocks| && blocks[i].Blocks? ==>
                               |blocks[i].numbers| == batches[i].rows
  }

  lemma {:induction false} FileOrderIn(blocks: seq<Column>, batches: seq<Keys.Batch>, n: nat)
    requires Numbers(blocks, batches) && n <= |blocks| && forall i :: 0 <= i < |batches| ==> batches[i].Valid()
    ensures forall x :: x in FileOrder(blocks[..n]) ==> Keys.InBatches(batches, x.0)
  {
    hide Keys.Batch.Valid;
    if n > 0 {
      FileOrderIn(blocks, batches, n - 1);
      assert blocks[..n][..n - 1] == blocks[..n - 1];
    }
  }

  lemma {:induction false} RowsOfIn(rows: seq<(Row, nat)>, block: nat, batches: seq<Keys.Batch>)
    requires forall x :: x in rows ==> Keys.InBatches(batches, x.0)
    ensures forall x :: x in RowsOf(rows, block) ==> Keys.InBatches(batches, x)
  {
    hide Keys.InBatches;
    if rows != [] {
      RowsOfIn(rows[..|rows| - 1], block, batches);
    }
  }

  /** A block's rows, in file order. */
  ghost function BlockRows(blocks: seq<Column>, block: nat): seq<Row> {
    RowsOf(FileOrder(blocks), block)
  }

  /** Indexes a source's rows and sorts each block's. The sort asks for an order, which batches with layered columns
      have. Of the page's blocks each one's run holds that block's rows, all of them and no others, by key and then by
      file order. */
  method Prepare(blocks: seq<Column>, batches: seq<Keys.Batch>, positions: BlockPositions,
                 ghost shapes: seq<seq<Layers.Shape>>,
                 ghost width: nat) returns (index: Option<Index>)
    requires positions.Valid() && Numbers(blocks, batches)
    requires Layers.HasShapes(batches, shapes, width) && Layers.Layered(shapes)
    ensures index.None? <==> Unreadable in blocks
    ensures index.Some? ==>
              && fresh(index.value) && index.value.Valid()
              && index.value.starts.Length == |positions.blocks| + 1
              && forall p: nat :: p < |positions.blocks| ==>
                   IsSortedRun(batches, BlockRows(blocks, positions.blocks[p]), index.value.Rows(p))
  {
    hide Layers.HasShapes, Layers.Layered, RowsOf, FileOrder, Keys.RowLeq, RunsSorted, RunsOrdered, Orders,
         Sorted, Numbers;
    index := Build(blocks, positions);
    if index.Some? {
      var built := index.value;
      ghost var (starts, was) := (built.starts[..], built.rows[..]);
      forall p: nat | p < |positions.blocks|
        ensures was[starts[p]..starts[p + 1]] == BlockRows(blocks, positions.blocks[p])
      {
        assert built.Rows(p) == was[starts[p]..starts[p + 1]];
      }
      RunsHaveOrder(blocks, batches, positions.blocks, shapes, width, starts, was);
      built.SortRuns(Keys.RowLeq(batches));
      RunsAreSorted(blocks, batches, positions.blocks, starts, was, built.rows[..]);
      forall p: nat | p < |positions.blocks|
        ensures IsSortedRun(batches, BlockRows(blocks, positions.blocks[p]), built.Rows(p))
      {
        assert built.Rows(p) == built.rows[..][starts[p]..starts[p + 1]];
      }
    }
  }

  /** A block's rows, sorted: there is one such sequence, whichever form of the keys the sort compares by. */
  ghost predicate IsSortedRun(batches: seq<Keys.Batch>, rows: seq<Row>, run: seq<Row>) {
    Sorted(run, Keys.RowLeq(batches)) && multiset(run) == multiset(rows)
  }

  lemma RunsHaveOrder(blocks: seq<Column>, batches: seq<Keys.Batch>, page: seq<nat>, shapes: seq<seq<Layers.Shape>>,
                      width: nat,
                      starts: seq<nat>, rows: seq<Row>)
    requires Numbers(blocks, batches) && Layers.HasShapes(batches, shapes, width) && Layers.Layered(shapes)
    requires |starts| == |page| + 1
    requires forall i, j :: 0 <= i <= j < |starts| ==> starts[i] <= starts[j] <= |rows|
    requires forall p: nat :: p < |page| ==> rows[starts[p]..starts[p + 1]] == BlockRows(blocks, page[p])
    ensures RunsOrdered(starts, rows, Keys.RowLeq(batches))
  {
    hide Layers.Layered, RowsOf, FileOrder, Keys.RowLeq, Orders, Numbers;
    assert forall i :: 0 <= i < |batches| ==> Layers.BatchShapes(batches[i], shapes[i], width);
    FileOrderIn(blocks, batches, |blocks|);
    assert blocks[..|blocks|] == blocks;
    hide Layers.HasShapes;
    forall k: nat | k + 1 < |starts| ensures Orders(Keys.RowLeq(batches), rows[starts[k]..starts[k + 1]]) {
      RowsOfIn(FileOrder(blocks), page[k], batches);
      Layers.LayeredOrders(batches, shapes, width, BlockRows(blocks, page[k]));
    }
  }

  lemma RunsAreSorted(blocks: seq<Column>, batches: seq<Keys.Batch>, page: seq<nat>, starts: seq<nat>, was: seq<Row>,
                      now: seq<Row>)
    requires |starts| == |page| + 1 && |was| == |now|
    requires forall i, j :: 0 <= i <= j < |starts| ==> starts[i] <= starts[j] <= |now|
    requires forall p: nat :: p < |page| ==> was[starts[p]..starts[p + 1]] == BlockRows(blocks, page[p])
    requires RunsSorted(starts, was, now, |page|, Keys.RowLeq(batches))
    ensures forall p: nat :: p < |page| ==>
              IsSortedRun(batches, BlockRows(blocks, page[p]), now[starts[p]..starts[p + 1]])
  {
    hide Keys.RowLeq, Sorted, BlockRows;
    forall p: nat | p < |page| ensures IsSortedRun(batches, BlockRows(blocks, page[p]), now[starts[p]..starts[p + 1]]) {
      assert RunSorted(was[starts[p]..starts[p + 1]], now[starts[p]..starts[p + 1]], Keys.RowLeq(batches), p < |page|);
    }
  }

  /** Whichever form of the keys a run was sorted by, it is the same run. */
  lemma RunOneWay(batches: seq<Keys.Batch>, rows: seq<Row>, a: seq<Row>, b: seq<Row>)
    requires (forall x :: x in rows ==> Keys.InBatches(batches, x)) && IsSortedRun(batches, rows, a)
             && IsSortedRun(batches, rows, b)
    ensures a == b
  {
    hide Keys.InBatches, Keys.RowLeq, Sorted;
    SameElements(a, rows);
    Sorting.SortedOneWay(batches, a, b);
  }
}
