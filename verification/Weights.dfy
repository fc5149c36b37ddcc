/**
 What each block of a range weighs: the rows of the range's tables, a row that several
 sources hold counted once, and the block's header. A block weighs in any range that covers
 it what it weighs in a read of the whole request.
 */
module Weights {
  import opened Wrappers
  import opened Words

  /** A row: its block, what identifies it among its table's rows, and what it weighs. */
  datatype Row = Row(block: Word, identity: nat, weight: Word)

  /** The rows of one table from all of its sources; with several, a row may come from more than one. */
  datatype Table = Table(several: bool, rows: seq<Row>)

  datatype Header = Header(block: Word, weight: Word)

  datatype Range = Range(from: Word, to: Option<Word>) {
    predicate Has(block: Word) {
      block >= from && (to.None? || block <= to.value)
    }
  }

  // ----- a row's own weight -----

  /** What a size column adds: nothing where it is null or negative, or no word holds it. */
  function SizeOf(size: Option<int>): Word {
    if size.None? || size.value < 0 || size.value > MAX_WORD then 0 else size.value
  }

  /** The sum of those sizes that are words. */
  function Sizes(sizes: seq<Option<int>>): nat {
    if sizes == [] then 0
    else
      var size := sizes[|sizes| - 1];
      Sizes(sizes[..|sizes| - 1]) + if size.Some? && 0 <= size.value <= MAX_WORD then size.value else 0
  }

  /** A fixed part and the sizes, saturating at each step, is their saturated sum: no order of columns and
      no corrupt size wraps it. */
  method RowWeight(fixed: Word, sizes: seq<Option<int>>) returns (weight: Word)
    ensures weight == Saturated(fixed + Sizes(sizes))
  {
    weight := fixed;
    for i := 0 to |sizes|
      invariant weight == Saturated(fixed + Sizes(sizes[..i]))
    {
      assert sizes[..i + 1][..i] == sizes[..i];
      weight := SaturatingAdd(weight, SizeOf(sizes[i]));
    }
    assert sizes[..|sizes|] == sizes;
  }

  // ----- the specification -----

  function Identities(rows: seq<Row>): set<nat> {
    set row | row in rows :: row.identity
  }

  /** The first `row` of its identity after `before`, where identities are compared at all. */
  predicate Counts(several: bool, before: seq<Row>, row: Row) {
    several ==> row.identity !in Identities(before)
  }

  /** The sum of what the counted rows of `block` weigh. */
  function TableWeight(several: bool, rows: seq<Row>, block: Word): nat {
    if rows == [] then 0
    else
      var (before, row) := (rows[..|rows| - 1], rows[|rows| - 1]);
      TableWeight(several, before, block) + if row.block == block && Counts(several, before, row) then row.weight else 0
  }

  function TablesWeight(tables: seq<Table>, block: Word): nat {
    if tables == [] then 0
    else
      var table := tables[|tables| - 1];
      TablesWeight(tables[..|tables| - 1], block) + TableWeight(table.several, table.rows, block)
  }

  function HeaderWeight(headers: seq<Header>, block: Word): nat {
    if headers == [] then 0
    else
      var header := headers[|headers| - 1];
      HeaderWeight(headers[..|headers| - 1], block) + if header.block == block then header.weight else 0
  }

  /** What a block weighs, before the sum saturates. */
  function Total(tables: seq<Table>, headers: seq<Header>, block: Word): nat {
    TablesWeight(tables, block) + HeaderWeight(headers, block)
  }

  // ----- the fold into a map -----

  function At(weights: map<Word, Word>, block: Word): Word {
    if block in weights then weights[block] else 0
  }

  /** Adds every counted row to its block. */
  method AccumulateRows(table: Table, weights: map<Word, Word>, ghost sums: Word -> nat) returns (more: map<Word, Word>)
    requires forall block: Word :: At(weights, block) == Saturated(sums(block))
    ensures forall block: Word :: At(more, block)
              == Saturated(sums(block) + TableWeight(table.several, table.rows, block))
  {
    hide Saturated, SaturatingAdd, TableWeight, Identities;
    more := weights;
    var seen: set<nat> := {};
    NothingWeighs(table.several);
    for i := 0 to |table.rows|
      invariant seen == Identities(table.rows[..i])
      invariant forall block: Word ::
                  At(more, block) == Saturated(sums(block) + TableWeight(table.several, table.rows[..i], block))
    {
      var row := table.rows[i];
      ghost var (before, now) := (table.rows[..i], table.rows[..i + 1]);
      TableWeightStep(table.several, before, row, now);
      SaturatesLater(sums(row.block) + TableWeight(table.several, before, row.block), row.weight);
      if !table.several || row.identity !in seen {
        more := more[row.block := SaturatingAdd(At(more, row.block), row.weight)];
      }
      seen := seen + {row.identity};
    }
    assert table.rows[..|table.rows|] == table.rows;
  }

  lemma NothingWeighs(several: bool)
    ensures Identities([]) == {}
    ensures forall block: Word :: TableWeight(several, [], block) == 0
  {
  }

  lemma TableWeightStep(several: bool, before: seq<Row>, row: Row, now: seq<Row>)
    requires now == before + [row]
    ensures Identities(now) == Identities(before) + {row.identity}
    ensures forall block: Word ::
              TableWeight(several, now, block)
              == TableWeight(several, before, block)
                 + if row.block == block && Counts(several, before, row) then row.weight else 0
  {
    assert now[..|now| - 1] == before;
  }

  /** Adds every candidate's headers to it. */
  method AccumulateHeaders(headers: seq<Header>, candidates: set<Word>, weights: map<Word, Word>,
                           ghost sums: Word -> nat)
    returns (more: map<Word, Word>)
    requires forall block: Word :: At(weights, block) == Saturated(sums(block))
    ensures forall block: Word :: block in candidates ==>
              At(more, block) == Saturated(sums(block) + HeaderWeight(headers, block))
  {
    hide Saturated, SaturatingAdd;
    more := weights;
    for i := 0 to |headers|
      invariant forall block: Word :: block in candidates ==>
                  At(more, block) == Saturated(sums(block) + HeaderWeight(headers[..i], block))
    {
      var header := headers[i];
      assert headers[..i + 1][..i] == headers[..i];
      SaturatesLater(sums(header.block) + HeaderWeight(headers[..i], header.block), header.weight);
      if header.block in candidates {
        more := more[header.block := SaturatingAdd(At(more, header.block), header.weight)];
      }
    }
    assert headers[..|headers|] == headers;
  }

  /** Every candidate's weight: the saturated sum of its counted rows and its headers. */
  method ComputeBlockWeights(tables: seq<Table>, headers: seq<Header>, candidates: set<Word>)
    returns (weights: map<Word, Word>)
    ensures forall block: Word :: block in candidates ==> At(weights, block) == Saturated(Total(tables, headers, block))
  {
    hide TableWeight, HeaderWeight;
    weights := map[];
    for i := 0 to |tables|
      invariant forall block: Word :: At(weights, block) == Saturated(TablesWeight(tables[..i], block))
    {
      assert tables[..i + 1][..i] == tables[..i];
      weights := AccumulateRows(tables[i], weights, block => TablesWeight(tables[..i], block));
    }
    assert tables[..|tables|] == tables;
    weights := AccumulateHeaders(headers, candidates, weights, block => TablesWeight(tables, block));
  }

  // ----- a range weighs its blocks as the whole request does -----

  function RowsIn(rows: seq<Row>, range: Range): seq<Row> {
    if rows == [] then []
    else
      var (before, row) := (RowsIn(rows[..|rows| - 1], range), rows[|rows| - 1]);
      if range.Has(row.block) then before + [row] else before
  }

  function HeadersIn(headers: seq<Header>, range: Range): seq<Header> {
    if headers == [] then []
    else
      var (before, header) := (HeadersIn(headers[..|headers| - 1], range), headers[|headers| - 1]);
      if range.Has(header.block) then before + [header] else before
  }

  /** What a scan of a range reads. */
  function Scan(tables: seq<Table>, range: Range): seq<Table> {
    seq(|tables|, i requires 0 <= i < |tables| => Table(tables[i].several, RowsIn(tables[i].rows, range)))
  }

  /** One row has one identity wherever it is read, and it names one row of one block. */
  ghost predicate Identified(rows: seq<Row>) {
    forall i, j :: 0 <= i < |rows| && 0 <= j < |rows| && rows[i].identity == rows[j].identity ==>
      rows[i].block == rows[j].block
  }

  lemma {:induction false} RowsInMember(rows: seq<Row>, range: Range, row: Row)
    ensures row in RowsIn(rows, range) <==> row in rows && range.Has(row.block)
  {
    if rows != [] {
      RowsInMember(rows[..|rows| - 1], range, row);
      assert rows == rows[..|rows| - 1] + [rows[|rows| - 1]];
    }
  }

  lemma {:induction false} TableWeightLocal(several: bool, rows: seq<Row>, range: Range, block: Word)
    requires (several ==> Identified(rows)) && range.Has(block)
    ensures TableWeight(several, RowsIn(rows, range), block) == TableWeight(several, rows, block)
  {
    if rows != [] {
      var (before, row) := (rows[..|rows| - 1], rows[|rows| - 1]);
      TableWeightLocal(several, before, range, block);
      if range.Has(row.block) {
        assert RowsIn(rows, range)[..|RowsIn(before, range)|] == RowsIn(before, range);
        CountsLocal(several, rows, range);
      }
    }
  }

  /** Whether the last row counts is settled by the rows of its own block. */
  lemma CountsLocal(several: bool, rows: seq<Row>, range: Range)
    requires rows != [] && (several ==> Identified(rows)) && range.Has(rows[|rows| - 1].block)
    ensures var (before, row) := (rows[..|rows| - 1], rows[|rows| - 1]);
            Counts(several, RowsIn(before, range), row) <==> Counts(several, before, row)
  {
    var (before, row) := (rows[..|rows| - 1], rows[|rows| - 1]);
    if several && row.identity in Identities(before) {
      var other :| other in before && other.identity == row.identity;
      var i :| 0 <= i < |before| && before[i] == other;
      assert rows[i] == other;
      RowsInMember(before, range, other);
    }
    if row.identity in Identities(RowsIn(before, range)) {
      var other :| other in RowsIn(before, range) && other.identity == row.identity;
      RowsInMember(before, range, other);
    }
  }

  lemma {:induction false} HeaderWeightLocal(headers: seq<Header>, range: Range, block: Word)
    requires range.Has(block)
    ensures HeaderWeight(HeadersIn(headers, range), block) == HeaderWeight(headers, block)
  {
    if headers != [] {
      var before := headers[..|headers| - 1];
      HeaderWeightLocal(before, range, block);
      if range.Has(headers[|headers| - 1].block) {
        assert HeadersIn(headers, range)[..|HeadersIn(before, range)|] == HeadersIn(before, range);
      }
    }
  }

  lemma {:induction false} TablesWeightLocal(tables: seq<Table>, range: Range, block: Word)
    requires range.Has(block) && forall i :: 0 <= i < |tables| && tables[i].several ==> Identified(tables[i].rows)
    ensures TablesWeight(Scan(tables, range), block) == TablesWeight(tables, block)
  {
    if tables != [] {
      var before := tables[..|tables| - 1];
      TablesWeightLocal(before, range, block);
      assert Scan(tables, range)[..|tables| - 1] == Scan(before, range);
      var table := tables[|tables| - 1];
      TableWeightLocal(table.several, table.rows, range, block);
    }
  }

  /** A block weighs in a range that covers it what it weighs in the whole request. */
  lemma TotalLocal(tables: seq<Table>, headers: seq<Header>, range: Range, block: Word)
    requires range.Has(block) && forall i :: 0 <= i < |tables| && tables[i].several ==> Identified(tables[i].rows)
    ensures Total(Scan(tables, range), HeadersIn(headers, range), block) == Total(tables, headers, block)
  {
    TablesWeightLocal(tables, range, block);
    HeaderWeightLocal(headers, range, block);
  }

  /** The rows of `targets` that some source row joins. */
  function Related(sources: seq<Row>, targets: seq<Row>, joins: (Row, Row) -> bool): seq<Row> {
    if targets == [] then []
    else
      var (before, target) := (Related(sources, targets[..|targets| - 1], joins), targets[|targets| - 1]);
      if exists source :: source in sources && joins(source, target) then before + [target] else before
  }

  /** A relation that stays in one block reads in a range what the whole request's holds of it. */
  lemma {:induction false} RelationInRange(sources: seq<Row>, targets: seq<Row>, joins: (Row, Row) -> bool,
                                           range: Range)
    requires forall source, target :: joins(source, target) ==> source.block == target.block
    ensures Related(RowsIn(sources, range), RowsIn(targets, range), joins)
            == RowsIn(Related(sources, targets, joins), range)
  {
    if targets != [] {
      var (before, target) := (targets[..|targets| - 1], targets[|targets| - 1]);
      RelationInRange(sources, before, joins, range);
      RowsInAppend(Related(sources, before, joins), target, range);
      if range.Has(target.block) {
        assert RowsIn(targets, range)[..|RowsIn(before, range)|] == RowsIn(before, range);
        forall source
          ensures source in RowsIn(sources, range) && joins(source, target)
                  <==> source in sources && joins(source, target)
        {
          RowsInMember(sources, range, source);
        }
      }
    }
  }

  lemma RowsInAppend(rows: seq<Row>, row: Row, range: Range)
    ensures RowsIn(rows + [row], range) == if range.Has(row.block) then RowsIn(rows, range) + [row]
                                           else RowsIn(rows, range)
  {
    assert (rows + [row])[..|rows|] == rows;
  }
}
