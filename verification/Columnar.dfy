/**
 Leaving out the row windows statistics rule out. A column's bounds are taken in signed order
 and its block numbers read unsigned; bounds that come out inverted prune nothing, which is
 what keeps that sound. A row that is pruned is one the filters drop, or one outside the block
 range, which the filters do not always check.
 */
module Columnar {
  import opened Wrappers
  import opened Words
  import opened IntTypes
  import opened Integers

  /** A row's integer columns; a column may be missing or null. */
  type Row = map<string, Option<int>>

  /** A column's bounds in each window of rows, where they are known, as an array of integers of some type states
      them: the column's own, or a wider one. */
  datatype WindowStats = WindowStats(offsets: seq<nat>, held: IntType, mins: seq<Option<int>>, maxs: seq<Option<int>>)

  datatype Table = Table(rows: seq<Row>, types: map<string, IntType>, stats: map<string, WindowStats>)

  type Bounds = map<string, (int, int)>

  /** An item's filters: what they say of a row, and whether bounds rule every row inside them out. */
  datatype Item = Item(columns: seq<string>, matches: Row -> Option<bool>, skips: Bounds -> bool)

  /** A key filter: its block column, what it says of a row, whether a key has a block within bounds, and whether the
      block range is checked before it. */
  datatype KeyFilter = KeyFilter(block: string, mask: Row -> Option<bool>, within: (Word, Word) -> bool,
                                 blocksFirst: bool)

  datatype Relation = NoRelation | Keys(filter: KeyFilter) | Addresses(mask: Row -> Option<bool>)

  datatype Request = Request(block: Option<string>, from: Option<Word>, to: Option<Word>, relation: Relation,
                             items: seq<Item>, tags: seq<seq<nat>>)

  // ----- what the scan is for -----

  function ValueOf(row: Row, column: string): Option<int> {
    if column in row then row[column] else None
  }

  /** A row of a table whose columns have these types. */
  ghost predicate RowTyped(types: map<string, IntType>, row: Row) {
    forall column :: column in types ==>
      && types[column].Stored()
      && (ValueOf(row, column).Some? ==> types[column].Holds(ValueOf(row, column).value))
  }

  ghost predicate WellTyped(table: Table) {
    forall i :: 0 <= i < |table.rows| ==> RowTyped(table.types, table.rows[i])
  }

  /** A row's block number: its value's bits, read unsigned. */
  function BlockOf(types: map<string, IntType>, row: Row, column: string): Option<nat> {
    if column in types && ValueOf(row, column).Some? then Some(Unsigned(ValueOf(row, column).value, types[column]))
    else None
  }

  predicate InBlocks(request: Request, block: nat) {
    (request.from.Some? ==> request.from.value <= block) && (request.to.Some? ==> block <= request.to.value)
  }

  /** Whether the row filters check the block range: not where relation keys fix the blocks of the rows they pick. */
  predicate ChecksBlocks(request: Request) {
    && (request.to.Some? || (request.from.Some? && request.from.value > 0))
    && !(request.relation.Keys? && !request.relation.filter.blocksFirst)
    && request.block.Some?
  }

  predicate Yes(answer: Option<bool>) {
    answer == Some(true)
  }

  predicate AnyItem(items: seq<Item>, which: seq<nat>, row: Row) {
    exists k :: 0 <= k < |which| && which[k] < |items| && Yes(items[which[k]].matches(row))
  }

  predicate RelationKeeps(relation: Relation, row: Row) {
    match relation
    case NoRelation => true
    case Keys(filter) => Yes(filter.mask(row))
    case Addresses(mask) => Yes(mask(row))
  }

  /** The full filter: every mask says yes, and no null is a yes. */
  predicate Keeps(types: map<string, IntType>, request: Request, row: Row) {
    && (ChecksBlocks(request) ==>
          BlockOf(types, row, request.block.value).Some?
          && InBlocks(request, BlockOf(types, row, request.block.value).value))
    && RelationKeeps(request.relation, row)
    && (request.items != [] ==> exists k :: 0 <= k < |request.items| && Yes(request.items[k].matches(row)))
  }

  // ----- what the parts promise -----

  ghost predicate RowWithin(row: Row, bounds: Bounds) {
    forall column :: column in bounds && ValueOf(row, column).Some? ==>
      bounds[column].0 <= ValueOf(row, column).value <= bounds[column].1
  }

  /** An item is skipped only where no row inside the bounds matches. */
  ghost predicate SkipsRight(item: Item) {
    forall row: Row, bounds :: RowWithin(row, bounds) && item.skips(bounds) ==> !Yes(item.matches(row))
  }

  /** A key filter rules blocks out only where no row of them is kept. */
  ghost predicate WithinRight(types: map<string, IntType>, filter: KeyFilter) {
    forall row: Row, min: Word, max: Word ::
      RowTyped(types, row) && !filter.within(min, max)
      && (BlockOf(types, row, filter.block).None? || min <= BlockOf(types, row, filter.block).value <= max)
      ==> !Yes(filter.mask(row))
  }

  ghost predicate Promised(types: map<string, IntType>, request: Request) {
    && (forall k :: 0 <= k < |request.items| ==> SkipsRight(request.items[k]))
    && (request.relation.Keys? ==> WithinRight(types, request.relation.filter))
    && (request.relation.Addresses? ==> request.items == [])
  }

  /** A row with a block number outside the request's range. */
  predicate OutOfRange(types: map<string, IntType>, request: Request, row: Row) {
    && request.block.Some? && BlockOf(types, row, request.block.value).Some?
    && !InBlocks(request, BlockOf(types, row, request.block.value).value)
  }

  /** The filters keep no row outside the block range: where they check the range they do not; where relation keys
      take its place, the keys must not. */
  ghost predicate KeptInRange(types: map<string, IntType>, request: Request) {
    forall row: Row :: RowTyped(types, row) && Keeps(types, request, row) ==> !OutOfRange(types, request, row)
  }

  /** Whether the statistics cover a table of `rows` rows once and in order, with one bound each per window. */
  predicate Covers(stats: WindowStats, rows: nat) {
    && stats.offsets != [] && stats.offsets[0] == 0 && stats.offsets[|stats.offsets| - 1] == rows
    && (forall w :: 0 <= w < |stats.offsets| - 1 ==> stats.offsets[w] <= stats.offsets[w + 1])
    && |stats.mins| == |stats.offsets| - 1 && |stats.maxs| == |stats.offsets| - 1
  }

  /** A statistic states a value: it is that value, or the value widened to the type the statistic is held at. */
  ghost predicate States(statistic: int, held: IntType, value: int, stored: IntType) {
    && stored.Stored() && held.Stored() && held.width >= stored.width
    && held.Holds(statistic) && stored.Holds(value) && (statistic - value) % held.Modulus() == 0
  }

  /** What a statistic states: its low bits, at the column's own type. */
  function Stated(statistic: int, stored: IntType): int {
    DeclaredValue(statistic, stored, stored.signed)
  }

  /** Reading the low bits finds the one value a statistic states, and reading them unsigned that value's block
      number. */
  lemma StatedIs(statistic: int, held: IntType, value: int, stored: IntType)
    requires States(statistic, held, value, stored)
    ensures Stated(statistic, stored) == value
    ensures BlockNumberAt(stored, AsSigned(statistic)) == Unsigned(value, stored)
  {
    StatementIs(stored, value, statistic, held);
    StatisticIsBlock(stored, value, statistic, held);
  }

  /** Bounds that cover the table hold of every value of their window, in the order of the values as stored. */
  ghost predicate Truthful(table: Table) {
    forall column :: column in table.stats && Covers(table.stats[column], |table.rows|) ==>
      column in table.types && forall w: nat, i: nat :: TrueOf(table, table.stats[column], column, w, i)
  }

  ghost predicate TrueOf(table: Table, stats: WindowStats, column: string, w: nat, i: nat)
    requires column in table.types
  {
    && w < |stats.mins| && w < |stats.maxs| && w + 1 < |stats.offsets| && i < |table.rows|
    && stats.offsets[w] <= i < stats.offsets[w + 1]
    ==>
      var (stored, value) := (table.types[column], ValueOf(table.rows[i], column));
      && (stats.mins[w].Some? ==>
            var min := Stated(stats.mins[w].value, stored);
            States(stats.mins[w].value, stats.held, min, stored) && (value.Some? ==> min <= value.value))
      && (stats.maxs[w].Some? ==>
            var max := Stated(stats.maxs[w].value, stored);
            States(stats.maxs[w].value, stats.held, max, stored) && (value.Some? ==> value.value <= max))
  }

  // ----- pruning -----

  /** Signed bounds that do not come out inverted as block numbers bound the block numbers of the values between
      them. */
  lemma SignedBoundsUnsigned(stored: IntType, min: int, max: int, value: int)
    requires stored.Stored() && stored.Holds(min) && stored.Holds(max) && stored.Holds(value) && min <= value <= max
    ensures Unsigned(min, stored) <= Unsigned(max, stored) ==>
              Unsigned(min, stored) <= Unsigned(value, stored) <= Unsigned(max, stored)
    ensures Unsigned(value, stored) <= MAX_WORD
  {
    UnsignedIs(min, stored);
    UnsignedIs(max, stored);
    UnsignedIs(value, stored);
  }

  /** Every window of the usable statistics. */
  ghost predicate HasWindow(usable: map<string, WindowStats>, w: nat) {
    forall column :: column in usable ==> w < |usable[column].mins| && w < |usable[column].maxs|
  }

  /** Each column's bounds in a window, where it has both. */
  function WindowBounds(types: map<string, IntType>, usable: map<string, WindowStats>, w: nat): Bounds
    requires HasWindow(usable, w)
  {
    map column | column in usable && column in types && usable[column].mins[w].Some? && usable[column].maxs[w].Some?
      :: (Stated(usable[column].mins[w].value, types[column]), Stated(usable[column].maxs[w].value, types[column]))
  }

  /** A window's block numbers, unless its bounds come out inverted. */
  function BlockBounds(types: map<string, IntType>, usable: map<string, WindowStats>, column: string, w: nat)
      : Option<(nat, nat)>
    requires HasWindow(usable, w)
  {
    if column !in usable || column !in types || usable[column].mins[w].None? || usable[column].maxs[w].None? then None
    else
      var min := BlockNumberAt(types[column], AsSigned(usable[column].mins[w].value));
      var max := BlockNumberAt(types[column], AsSigned(usable[column].maxs[w].value));
      if min <= max <= MAX_WORD then Some((min, max)) else None
  }

  /** The window's blocks all lie before the range, or all after it. */
  predicate BlocksPruned(types: map<string, IntType>, request: Request, usable: map<string, WindowStats>, w: nat)
    requires HasWindow(usable, w)
  {
    && request.block.Some? && BlockBounds(types, usable, request.block.value, w).Some?
    && var (min, max) := BlockBounds(types, usable, request.block.value, w).value;
       (request.from.Some? && max < request.from.value) || (request.to.Some? && min > request.to.value)
  }

  predicate ItemsPruned(types: map<string, IntType>, request: Request, usable: map<string, WindowStats>, w: nat)
    requires HasWindow(usable, w)
  {
    && request.items != []
    && forall k :: 0 <= k < |request.items| ==> request.items[k].skips(WindowBounds(types, usable, w))
  }

  predicate KeysPruned(types: map<string, IntType>, request: Request, usable: map<string, WindowStats>, w: nat)
    requires HasWindow(usable, w)
  {
    && request.relation.Keys? && BlockBounds(types, usable, request.relation.filter.block, w).Some?
    && var (min, max) := BlockBounds(types, usable, request.relation.filter.block, w).value;
       min <= MAX_WORD && max <= MAX_WORD && !request.relation.filter.within(min, max)
  }

  predicate Pruned(types: map<string, IntType>, request: Request, usable: map<string, WindowStats>, w: nat)
    requires HasWindow(usable, w)
  {
    || BlocksPruned(types, request, usable, w)
    || ItemsPruned(types, request, usable, w)
    || KeysPruned(types, request, usable, w)
  }

  /** The statistics a scan may use: the table's, covering it, all with the same windows. */
  ghost predicate Usable(table: Table, usable: map<string, WindowStats>, offsets: seq<nat>) {
    forall column :: column in usable ==>
      && column in table.stats && usable[column] == table.stats[column]
      && Covers(usable[column], |table.rows|) && usable[column].offsets == offsets
  }

  lemma Windowed(table: Table, usable: map<string, WindowStats>, offsets: seq<nat>, w: nat)
    requires Usable(table, usable, offsets) && w + 1 < |offsets|
    ensures HasWindow(usable, w)
  {
  }

  /** A window's bounds hold of its rows. */
  lemma RowBounded(table: Table, usable: map<string, WindowStats>, offsets: seq<nat>, w: nat, i: nat)
    requires Truthful(table) && Usable(table, usable, offsets) && HasWindow(usable, w)
    requires w + 1 < |offsets| && i < |table.rows| && offsets[w] <= i < offsets[w + 1]
    ensures RowWithin(table.rows[i], WindowBounds(table.types, usable, w))
  {
    hide Truthful, Usable, ValueOf, WindowBounds, TrueOf, Stated;
    var (row, bounds) := (table.rows[i], WindowBounds(table.types, usable, w));
    forall column | column in bounds && ValueOf(row, column).Some?
      ensures bounds[column].0 <= ValueOf(row, column).value <= bounds[column].1
    {
      WindowBoundsAt(table.types, usable, w, column);
      ColumnBounded(table, usable, offsets, w, i, column);
    }
  }

  lemma WindowBoundsAt(types: map<string, IntType>, usable: map<string, WindowStats>, w: nat, column: string)
    requires HasWindow(usable, w) && column in WindowBounds(types, usable, w)
    ensures column in usable && column in types && usable[column].mins[w].Some? && usable[column].maxs[w].Some?
    ensures WindowBounds(types, usable, w)[column]
            == (Stated(usable[column].mins[w].value, types[column]),
                Stated(usable[column].maxs[w].value, types[column]))
  {
    hide Stated;
  }

  lemma ColumnBounded(table: Table, usable: map<string, WindowStats>, offsets: seq<nat>, w: nat, i: nat, column: string)
    requires Truthful(table) && Usable(table, usable, offsets) && column in usable && column in table.types
    requires w + 1 < |offsets| && i < |table.rows| && offsets[w] <= i < offsets[w + 1]
    ensures w < |usable[column].mins| && w < |usable[column].maxs| && usable[column].offsets == offsets
    ensures TrueOf(table, usable[column], column, w, i)
    ensures ValueOf(table.rows[i], column).Some? ==>
              && (usable[column].mins[w].Some? ==>
                    Stated(usable[column].mins[w].value, table.types[column]) <= ValueOf(table.rows[i], column).value)
              && (usable[column].maxs[w].Some? ==>
                    ValueOf(table.rows[i], column).value <= Stated(usable[column].maxs[w].value, table.types[column]))
  {
    hide ValueOf, States, Stated;
    assert TrueOf(table, table.stats[column], column, w, i);
  }

  /** A window's block numbers are those of its rows. */
  lemma BlockBounded(table: Table, usable: map<string, WindowStats>, offsets: seq<nat>, w: nat, i: nat, column: string)
    requires WellTyped(table) && Truthful(table) && Usable(table, usable, offsets) && HasWindow(usable, w)
    requires w + 1 < |offsets| && i < |table.rows| && offsets[w] <= i < offsets[w + 1]
    ensures BlockBounds(table.types, usable, column, w).Some? && BlockOf(table.types, table.rows[i], column).Some? ==>
              var (min, max) := BlockBounds(table.types, usable, column, w).value;
              min <= BlockOf(table.types, table.rows[i], column).value <= max <= MAX_WORD
  {
    hide Truthful, Usable, Stated, AsSigned, BlockNumberAt, Unsigned;
    if BlockBounds(table.types, usable, column, w).Some? && BlockOf(table.types, table.rows[i], column).Some? {
      ColumnBounded(table, usable, offsets, w, i, column);
      var (stats, stored) := (usable[column], table.types[column]);
      var (low, high, value) := (stats.mins[w].value, stats.maxs[w].value, ValueOf(table.rows[i], column).value);
      StatedIs(low, stats.held, Stated(low, stored), stored);
      StatedIs(high, stats.held, Stated(high, stored), stored);
      assert RowTyped(table.types, table.rows[i]);
      SignedBoundsUnsigned(stored, Stated(low, stored), Stated(high, stored), value);
    }
  }

  /** A row of a pruned window is one the filters drop, or one outside the block range. */
  lemma PrunedRow(table: Table, request: Request, usable: map<string, WindowStats>, offsets: seq<nat>, w: nat, i: nat)
    requires WellTyped(table) && Truthful(table) && Usable(table, usable, offsets) && HasWindow(usable, w)
    requires Promised(table.types, request)
    requires w + 1 < |offsets| && i < |table.rows| && offsets[w] <= i < offsets[w + 1]
    requires request.block.Some? ==> BlockOf(table.types, table.rows[i], request.block.value).Some?
    ensures Pruned(table.types, request, usable, w) && Keeps(table.types, request, table.rows[i]) ==>
              OutOfRange(table.types, request, table.rows[i])
  {
    hide Truthful, Usable, WindowBounds, BlockBounds, RowWithin, BlockOf, RowTyped, HasWindow;
    RowBounded(table, usable, offsets, w, i);
    var row := table.rows[i];
    assert RowTyped(table.types, row);
    if request.block.Some? {
      BlockBounded(table, usable, offsets, w, i, request.block.value);
    }
    if request.relation.Keys? {
      BlockBounded(table, usable, offsets, w, i, request.relation.filter.block);
      if KeysPruned(table.types, request, usable, w) {
        var (min, max) := BlockBounds(table.types, usable, request.relation.filter.block, w).value;
        KeysRuleOut(table.types, request.relation.filter, row, min, max);
      }
    }
    forall k | 0 <= k < |request.items| && request.items[k].skips(WindowBounds(table.types, usable, w))
      ensures !Yes(request.items[k].matches(row))
    {
      assert SkipsRight(request.items[k]);
    }
  }

  lemma KeysRuleOut(types: map<string, IntType>, filter: KeyFilter, row: Row, min: Word, max: Word)
    requires WithinRight(types, filter) && RowTyped(types, row) && !filter.within(min, max)
    requires BlockOf(types, row, filter.block).None? || min <= BlockOf(types, row, filter.block).value <= max
    ensures !Yes(filter.mask(row))
  {
  }
}
