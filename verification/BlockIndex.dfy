/** Where a page's blocks sit in it, and the rows of each of them, gathered by a counting sort. */
module BlockIndex {
  import opened Wrappers
  import opened Order
  import opened Grouping

  /** A batch's block number column: a batch may lack it, and one that is no integer is an error. */
  datatype Column = Absent | Unreadable | Blocks(numbers: seq<nat>)

  /** A row, as its batch and its place in it. */
  type Row = (nat, nat)

  ghost predicate Ascending(blocks: seq<nat>) {
    forall i, j :: 0 <= i < j < |blocks| ==> blocks[i] < blocks[j]
  }

  /** `block` is the page's `position`th, or no block of it. */
  ghost predicate IsPosition(blocks: seq<nat>, block: nat, position: Option<nat>) {
    match position
    case Some(p) => p < |blocks| && blocks[p] == block
    case None => block !in blocks
  }

  /** The slots hold the positions of the first `n` blocks, and nothing else. */
  ghost predicate Placed(blocks: seq<nat>, n: nat, slots: seq<nat>)
    requires n <= |blocks|
  {
    forall i :: 0 <= i < |slots| ==> SlotOk(blocks, n, i, slots[i])
  }

  ghost predicate SlotOk(blocks: seq<nat>, n: nat, i: nat, slot: nat)
    requires n <= |blocks|
  {
    if slot == 0 then forall p :: 0 <= p < n ==> blocks[p] != blocks[0] + i
    else slot <= n && blocks[slot - 1] == blocks[0] + i
  }

  /** A slot for each block number the page spans. */
  method Place(blocks: seq<nat>) returns (placed: seq<nat>)
    requires Ascending(blocks)
    ensures |placed| == Span(blocks) && Placed(blocks, |blocks|, placed)
  {
    var slots := new nat[Span(blocks)](_ => 0);
    for position := 0 to |blocks|
      invariant Placed(blocks, position, slots[..])
    {
      ghost var before := slots[..];
      slots[blocks[position] - blocks[0]] := position + 1;
      forall i | 0 <= i < slots.Length ensures SlotOk(blocks, position + 1, i, slots[i]) {
        assert SlotOk(blocks, position, i, before[i]);
      }
    }
    placed := slots[..];
  }

  /** Each block's position in the page's ascending list. */
  class BlockPositions {
    const blocks: seq<nat>
    /** `position + 1` of block `blocks[0] + i`, or 0 for a block the page lacks, when the blocks are
        dense enough to take a slot each. */
    var dense: Option<seq<nat>>

    ghost predicate Valid()
      reads this
    {
      && Ascending(blocks)
      && (dense.Some? ==> |dense.value| == Span(blocks) && Placed(blocks, |blocks|, dense.value))
    }

    constructor (blocks: seq<nat>)
      requires Ascending(blocks)
      ensures Valid() && this.blocks == blocks
      ensures dense.Some? <==> blocks == [] || blocks[|blocks| - 1] - blocks[0] < 65536
                               || blocks[|blocks| - 1] - blocks[0] < 4 * |blocks|
    {
      this.blocks := blocks;
      this.dense := None;
      new;
      if Span(blocks) <= Slots(blocks) {
        var slots := Place(blocks);
        dense := Some(slots);
      }
    }

    method Position(block: nat) returns (position: Option<nat>)
      requires Valid()
      ensures IsPosition(blocks, block, position)
    {
      if dense.Some? {
        if blocks == [] || block < blocks[0] {
          return None;
        }
        var slot := block - blocks[0];
        if slot >= |dense.value| {
          return None;
        }
        assert SlotOk(blocks, |blocks|, slot, dense.value[slot]);
        if dense.value[slot] == 0 {
          return None;
        }
        return Some(dense.value[slot] - 1);
      }

      var low, high := 0, |blocks|;
      while low < high
        invariant 0 <= low <= high <= |blocks|
        invariant forall i :: 0 <= i < low ==> blocks[i] < block
        invariant forall i :: high <= i < |blocks| ==> block < blocks[i]
      {
        var middle := (low + high) / 2;
        if blocks[middle] == block {
          return Some(middle);
        } else if blocks[middle] < block {
          low := middle + 1;
        } else {
          high := middle;
        }
      }
      return None;
    }
  }

  /** How many block numbers a page spans. */
  function Span(blocks: seq<nat>): (span: nat)
    requires forall i, j :: 0 <= i < j < |blocks| ==> blocks[i] < blocks[j]
    ensures forall p :: 0 <= p < |blocks| ==> 0 <= blocks[p] - blocks[0] < span
  {
    if blocks == [] then 0 else blocks[|blocks| - 1] - blocks[0] + 1
  }

  /** How many slots a dense page may take. */
  function Slots(blocks: seq<nat>): nat {
    if |blocks| * 4 < 65536 then 65536 else |blocks| * 4
  }

  /** Every row with its block, in file order. */
  function FileOrder(batches: seq<Column>): seq<(Row, nat)> {
    if batches == [] then []
    else FileOrder(batches[..|batches| - 1]) + BatchRows(batches[|batches| - 1], |batches| - 1)
  }

  function BatchRows(column: Column, batch: nat): seq<(Row, nat)> {
    match column
    case Blocks(numbers) => seq(|numbers|, row requires 0 <= row < |numbers| => ((batch, row), numbers[row]))
    case _ => []
  }

  /** The rows of one block, in file order. */
  function RowsOf(rows: seq<(Row, nat)>, block: nat): seq<Row> {
    if rows == [] then []
    else
      var before := RowsOf(rows[..|rows| - 1], block);
      if rows[|rows| - 1].1 == block then before + [rows[|rows| - 1].0] else before
  }

  /** A block's rows are the rows that carry its number, as often as they do. */
  lemma {:induction false} RowsOfCounts(rows: seq<(Row, nat)>, block: nat, row: Row)
    ensures multiset(RowsOf(rows, block))[row] == multiset(rows)[(row, block)]
  {
    if rows != [] {
      var n := |rows| - 1;
      RowsOfCounts(rows[..n], block, row);
      assert rows == rows[..n] + [rows[n]];
    }
  }

  /** Each row with its position, as `position` of its block says. */
  ghost predicate KeysRows(items: seq<Keyed<Row>>, rows: seq<(Row, nat)>, blocks: seq<nat>) {
    && |items| == |rows|
    && forall i :: 0 <= i < |rows| ==> items[i].1 == rows[i].0 && IsPosition(blocks, rows[i].1, items[i].0)
  }

  /** A block's run is its rows. */
  lemma {:induction false} SelectIsRowsOf(items: seq<Keyed<Row>>, rows: seq<(Row, nat)>, blocks: seq<nat>, p: nat)
    requires Ascending(blocks) && KeysRows(items, rows, blocks) && p < |blocks|
    ensures Select(items, p) == RowsOf(rows, blocks[p])
  {
    if rows != [] {
      SelectIsRowsOf(items[..|items| - 1], rows[..|rows| - 1], blocks, p);
    }
  }

  /** The rows of each block of a page, one run a block, all in one buffer. */
  class Index {
    var starts: array<nat>
    var rows: array<Row>

    ghost predicate Valid()
      reads this, starts
    {
      && starts.Length > 0
      && starts[0] == 0
      && starts[starts.Length - 1] == rows.Length
      && forall i, j :: 0 <= i <= j < starts.Length ==> starts[i] <= starts[j]
    }

    constructor (starts: array<nat>, rows: array<Row>)
      ensures this.starts == starts && this.rows == rows
    {
      this.starts, this.rows := starts, rows;
    }

    /** The rows of the page's `position`th block. */
    function Rows(position: nat): seq<Row>
      requires Valid() && position + 1 < starts.Length
      reads this, starts, rows
    {
      rows[starts[position]..starts[position + 1]]
    }

    /** Where the run of each block lies, as splitting the buffer at the runs' lengths finds it. */
    method Runs() returns (runs: seq<(nat, nat)>)
      requires Valid()
      ensures |runs| == starts.Length - 1
      ensures forall p :: 0 <= p < |runs| ==> runs[p] == (starts[p], starts[p + 1])
    {
      runs := [];
      var rest := 0;
      for p := 0 to starts.Length - 1
        invariant |runs| == p && rest == starts[p]
        invariant forall k :: 0 <= k < p ==> runs[k] == (starts[k], starts[k + 1])
      {
        var length := starts[p + 1] - starts[p];
        runs := runs + [(rest, rest + length)];
        rest := rest + length;
      }
    }

    /** One run sorted in place. */
    method SortRun(from: nat, to: nat, leq: (Row, Row) -> bool)
      requires from <= to <= rows.Length && Orders(leq, rows[from..to])
      modifies rows
      ensures rows[..from] == old(rows[..from]) && rows[to..] == old(rows[to..])
      ensures Sorted(rows[from..to], leq) && multiset(rows[from..to]) == multiset(old(rows[from..to]))
    {
      hide Orders, Sorted;
      var sorted := Sort(rows[from..to], leq);
      SameElements(sorted, rows[from..to]);
      for i := from to to
        invariant forall k :: 0 <= k < from || to <= k < rows.Length ==> rows[k] == old(rows[k])
        invariant forall k :: from <= k < i ==> rows[k] == sorted[k - from]
      {
        rows[i] := sorted[i - from];
      }
      assert rows[from..to] == sorted;
    }

    /** Each run sorted in place, by an order of its own rows. */
    method SortRuns(leq: (Row, Row) -> bool)
      requires Valid() && starts as object != rows && RunsOrdered(starts[..], rows[..], leq)
      modifies rows
      ensures Valid()
      ensures RunsSorted(starts[..], old(rows[..]), rows[..], starts.Length - 1, leq)
    {
      hide RunsSorted, RunsOrdered, Orders;
      var runs := Runs();
      RunsUntouched(starts[..], rows[..], leq);
      for p := 0 to |runs|
        invariant Valid()
        invariant RunsSorted(starts[..], old(rows[..]), rows[..], p, leq)
      {
        var (from, to) := runs[p];
        assert starts[p] <= starts[p + 1] <= starts[starts.Length - 1];
        ghost var before := rows[..];
        RunsLeft(starts[..], old(rows[..]), before, p, leq);
        assert rows[from..to] == before[from..to];
        SortRun(from, to, leq);
        RunsStep(starts[..], old(rows[..]), before, rows[..], p, leq);
      }
    }
  }

  /** The first `p` runs of `now` are those of `was`, sorted; the others are those of `was`. */
  ghost predicate RunsSorted(starts: seq<nat>, was: seq<Row>, now: seq<Row>, p: nat, leq: (Row, Row) -> bool) {
    && |was| == |now|
    && forall k: nat :: k + 1 < |starts| && starts[k] <= starts[k + 1] <= |now| ==>
         RunSorted(was[starts[k]..starts[k + 1]], now[starts[k]..starts[k + 1]], leq, k < p)
  }

  /** The rows of each run are ordered. */
  ghost predicate RunsOrdered(starts: seq<nat>, rows: seq<Row>, leq: (Row, Row) -> bool) {
    forall k: nat :: k + 1 < |starts| && starts[k] <= starts[k + 1] <= |rows| ==>
      Orders(leq, rows[starts[k]..starts[k + 1]])
  }

  lemma RunsLeft(starts: seq<nat>, was: seq<Row>, now: seq<Row>, p: nat, leq: (Row, Row) -> bool)
    requires RunsSorted(starts, was, now, p, leq) && RunsOrdered(starts, was, leq)
    requires p + 1 < |starts| && starts[p] <= starts[p + 1] <= |now|
    ensures Orders(leq, now[starts[p]..starts[p + 1]])
  {
    hide Orders;
    assert RunSorted(was[starts[p]..starts[p + 1]], now[starts[p]..starts[p + 1]], leq, false);
  }

  lemma RunsUntouched(starts: seq<nat>, rows: seq<Row>, leq: (Row, Row) -> bool)
    ensures RunsSorted(starts, rows, rows, 0, leq)
  {
  }

  lemma RunsStep(starts: seq<nat>, was: seq<Row>, before: seq<Row>, now: seq<Row>, p: nat, leq: (Row, Row) -> bool)
    requires p + 1 < |starts| && forall i, j :: 0 <= i <= j < |starts| ==> starts[i] <= starts[j] <= |now|
    requires |before| == |now| && before[..starts[p]] == now[..starts[p]]
             && before[starts[p + 1]..] == now[starts[p + 1]..]
    requires RunsSorted(starts, was, before, p, leq)
    requires RunSorted(before[starts[p]..starts[p + 1]], now[starts[p]..starts[p + 1]], leq, true)
    ensures RunsSorted(starts, was, now, p + 1, leq)
  {
    forall k: nat | k + 1 < |starts| && starts[k] <= starts[k + 1] <= |now|
      ensures RunSorted(was[starts[k]..starts[k + 1]], now[starts[k]..starts[k + 1]], leq, k < p + 1)
    {
      var (from, to) := (starts[p], starts[p + 1]);
      assert RunSorted(was[starts[k]..starts[k + 1]], before[starts[k]..starts[k + 1]], leq, k < p);
      if k < p {
        assert starts[k + 1] <= from;
        SliceOfTake(before, from, starts[k], starts[k + 1]);
        SliceOfTake(now, from, starts[k], starts[k + 1]);
      } else if k > p {
        assert to <= starts[k];
        SliceOfDrop(before, to, starts[k], starts[k + 1]);
        SliceOfDrop(now, to, starts[k], starts[k + 1]);
      }
    }
  }

  lemma SliceOfTake<T>(s: seq<T>, n: nat, from: nat, to: nat)
    requires from <= to <= n <= |s|
    ensures s[from..to] == s[..n][from..to]
  {
  }

  lemma SliceOfDrop<T>(s: seq<T>, n: nat, from: nat, to: nat)
    requires n <= from <= to <= |s|
    ensures s[from..to] == s[n..][from - n..to - n]
  {
  }

  /** `run` is `was`: sorted where `sorted` says so, as it was elsewhere. */
  ghost predicate RunSorted(was: seq<Row>, run: seq<Row>, leq: (Row, Row) -> bool, sorted: bool) {
    if sorted then Sorted(run, leq) && multiset(run) == multiset(was) else run == was
  }

  method VisitBatch(numbers: seq<nat>, batch: nat) returns (rows: seq<(Row, nat)>)
    ensures rows == BatchRows(Blocks(numbers), batch)
  {
    rows := [];
    for row := 0 to |numbers|
      invariant rows == BatchRows(Blocks(numbers), batch)[..row]
    {
      rows := rows + [((batch, row), numbers[row])];
    }
  }

  /** Every row with its block, in file order; an error where a column is no integer. */
  method ForEachBlockNumber(batches: seq<Column>) returns (rows: Option<seq<(Row, nat)>>)
    ensures rows.None? <==> Unreadable in batches
    ensures rows.Some? ==> rows.value == FileOrder(batches)
  {
    var visited: seq<(Row, nat)> := [];
    for batch := 0 to |batches|
      invariant Unreadable !in batches[..batch]
      invariant visited == FileOrder(batches[..batch])
    {
      assert batches[..batch + 1][..batch] == batches[..batch];
      match batches[batch]
      case Absent =>
      case Unreadable => return None;
      case Blocks(numbers) =>
        var rows := VisitBatch(numbers, batch);
        visited := visited + rows;
    }
    assert batches[..|batches|] == batches;
    return Some(visited);
  }

  /** The index of a page: the run of each of its blocks is that block's rows in file order, and rows of
      other blocks are in none. */
  method Build(batches: seq<Column>, positions: BlockPositions) returns (index: Option<Index>)
    requires positions.Valid()
    ensures index.None? <==> Unreadable in batches
    ensures index.Some? ==>
              && fresh(index.value) && fresh(index.value.rows) && index.value.Valid()
              && index.value.starts as object != index.value.rows
              && index.value.starts.Length == |positions.blocks| + 1
              && forall p: nat :: p < |positions.blocks| ==>
                   index.value.Rows(p) == RowsOf(FileOrder(batches), positions.blocks[p])
  {
    hide Select, Before, RowsOf, FileOrder, KeysRows, Holds, Ascending, Placed;
    var rows := ForEachBlockNumber(batches);
    if rows.None? {
      return None;
    }
    var items := KeyRows(rows.value, positions);
    var n := |positions.blocks|;
    var starts := Starts(items, n);
    var filled := Fill(items, n, starts);
    BuildsRuns(items, rows.value, positions.blocks, starts[..], filled[..]);
    var built := new Index(starts, filled);
    index := Some(built);
  }

  /** Each row with its block's position. */
  method KeyRows(rows: seq<(Row, nat)>, positions: BlockPositions) returns (items: seq<Keyed<Row>>)
    requires positions.Valid()
    ensures KeysRows(items, rows, positions.blocks)
    ensures forall i :: 0 <= i < |items| && items[i].0.Some? ==> items[i].0.value < |positions.blocks|
  {
    items := [];
    for i := 0 to |rows|
      invariant KeysRows(items, rows[..i], positions.blocks)
    {
      var position := positions.Position(rows[i].1);
      items := items + [(position, rows[i].0)];
    }
    assert rows[..|rows|] == rows;
  }

  lemma BuildsRuns(items: seq<Keyed<Row>>, rows: seq<(Row, nat)>, blocks: seq<nat>, starts: seq<nat>, filled: seq<Row>)
    requires Ascending(blocks) && KeysRows(items, rows, blocks)
    requires |starts| == |blocks| + 1 && forall p :: 0 <= p < |starts| ==> starts[p] == Before(items, p)
    requires |filled| == starts[|blocks|]
    requires forall p :: 0 <= p < |blocks| ==> Holds(filled, Before(items, p), Select(items, p))
    ensures starts[0] == 0
    ensures forall i, j :: 0 <= i <= j < |starts| ==> starts[i] <= starts[j]
    ensures forall p: nat :: p < |blocks| ==> filled[starts[p]..starts[p + 1]] == RowsOf(rows, blocks[p])
  {
    hide Select, Before;
    BeforeStep(items, 0);
    forall i, j | 0 <= i <= j < |starts| ensures starts[i] <= starts[j] {
      BeforeGrows(items, i, j);
    }
    forall p: nat | p < |blocks| ensures filled[starts[p]..starts[p + 1]] == RowsOf(rows, blocks[p]) {
      SelectIsRowsOf(items, rows, blocks, p);
      BeforeStep(items, p + 1);
      assert Holds(filled, Before(items, p), Select(items, p));
    }
  }
}
