/**
 What a scan returns, said of the request's own fields and the rows' own values: which rows it
 may return, which it must, and that they come in the table's order.
 */
module ScanMeaning {
  import opened Wrappers
  import opened Words
  import opened IntTypes
  import opened Integers
  import opened Columnar

  /** The number of a row's block: an integer of so many bytes, as it is stored, taken modulo what they count to. */
  ghost predicate IsNumber(types: map<string, IntType>, row: Row, column: string, number: nat) {
    && column in types && column in row && row[column].Some?
    && exists wraps: int :: row[column].value == number + wraps * types[column].Modulus()
                            && number < types[column].Modulus()
  }

  /** The bounds of the request hold of a row's block. */
  ghost predicate Bounded(types: map<string, IntType>, request: Request, row: Row) {
    exists number: nat ::
      && request.block.Some? && IsNumber(types, row, request.block.value, number)
      && (request.from.Some? ==> request.from.value <= number)
      && (request.to.Some? ==> number <= request.to.value)
  }

  /** The filters look at bounds: there are some, and no relation keys take their place. */
  ghost predicate LooksAtBounds(request: Request) {
    && request.block.Some?
    && (request.to.Some? || (request.from.Some? && request.from.value != 0))
    && (match request.relation
        case Keys(filter) => filter.blocksFirst
        case _ => true)
  }

  /** What the relation says of a row is yes, where there is one. */
  ghost predicate Picked(request: Request, row: Row) {
    && (request.relation.Keys? ==> request.relation.filter.mask(row) == Some(true))
    && (request.relation.Addresses? ==> request.relation.mask(row) == Some(true))
  }

  ghost predicate Matched(request: Request, row: Row) {
    request.items != [] ==> exists k :: 0 <= k < |request.items| && request.items[k].matches(row) == Some(true)
  }

  /** A row that a scan asks for. */
  ghost predicate Asked(types: map<string, IntType>, request: Request, row: Row) {
    (LooksAtBounds(request) ==> Bounded(types, request, row)) && Picked(request, row) && Matched(request, row)
  }

  lemma NumberIs(types: map<string, IntType>, row: Row, column: string, number: nat)
    ensures BlockOf(types, row, column) == Some(number) <==> IsNumber(types, row, column, number)
  {
    if column in types && column in row && row[column].Some? {
      var (value, modulus) := (row[column].value, types[column].Modulus());
      assert value == value % modulus + value / modulus * modulus;
      if wraps: int :| value == number + wraps * modulus && number < modulus {
        Unwraps(value, number, wraps, modulus);
      }
    }
  }

  lemma Unwraps(value: int, number: nat, wraps: int, modulus: nat)
    requires modulus > 0 && number < modulus && value == number + wraps * modulus
    ensures value % modulus == number
  {
    var (rest, whole) := (value % modulus, value / modulus);
    assert value == rest + whole * modulus;
    assert number - rest == (whole - wraps) * modulus;
    assert whole - wraps >= 1 ==> (whole - wraps) * modulus >= modulus;
    assert whole - wraps <= -1 ==> (whole - wraps) * modulus <= -(modulus as int);
  }

  /** The filters keep exactly the rows asked for. */
  lemma KeepsAsked(types: map<string, IntType>, request: Request, row: Row)
    ensures Keeps(types, request, row) <==> Asked(types, request, row)
  {
    hide IsNumber, BlockOf;
    if request.block.Some? {
      var column := request.block.value;
      forall number: nat ensures BlockOf(types, row, column) == Some(number) <==> IsNumber(types, row, column, number) {
        NumberIs(types, row, column, number);
      }
    }
  }

  // ----- which windows are ruled out -----

  /** The statistics of a window state these values as a column's bounds. */
  ghost predicate Stands(types: map<string, IntType>, usable: map<string, WindowStats>, column: string, w: nat,
                         low: int, high: int) {
    && column in usable && column in types && w < |usable[column].mins| && w < |usable[column].maxs|
    && usable[column].mins[w].Some? && States(usable[column].mins[w].value, usable[column].held, low, types[column])
    && usable[column].maxs[w].Some? && States(usable[column].maxs[w].value, usable[column].held, high, types[column])
  }

  /** Where a column has statistics of both bounds, they state some. */
  ghost predicate AllState(types: map<string, IntType>, usable: map<string, WindowStats>, w: nat)
    requires HasWindow(usable, w)
  {
    forall column :: column in usable && column in types && usable[column].mins[w].Some? && usable[column].maxs[w].Some?
                     ==> exists low, high :: Stands(types, usable, column, w, low, high)
  }

  /** A value's number as a block. */
  function Number(value: int, stored: IntType): int {
    if value < 0 then value + stored.Modulus() else value
  }

  /** The blocks a window's bounds say it lies in, where they are not the wrong way round as numbers. */
  ghost predicate LiesIn(types: map<string, IntType>, usable: map<string, WindowStats>, column: string, w: nat,
                         min: int, max: int) {
    && min <= max
    && exists low, high :: Stands(types, usable, column, w, low, high)
                           && min == Number(low, types[column]) && max == Number(high, types[column])
  }

  /** The bounds of every column that has some, as stated. */
  ghost predicate AllBounds(types: map<string, IntType>, usable: map<string, WindowStats>, w: nat, bounds: Bounds) {
    && (forall column, low, high :: Stands(types, usable, column, w, low, high) ==>
          column in bounds && bounds[column] == (low, high))
    && (forall column :: column in bounds ==>
          Stands(types, usable, column, w, bounds[column].0, bounds[column].1))
  }

  /** The blocks a window lies in all come before the request's first, or after its last. */
  ghost predicate Outside(types: map<string, IntType>, request: Request, usable: map<string, WindowStats>, w: nat) {
    exists min, max ::
      && request.block.Some? && LiesIn(types, usable, request.block.value, w, min, max)
      && ((request.from.Some? && max < request.from.value) || (request.to.Some? && min > request.to.value))
  }

  /** Every item rules a window of these bounds out. */
  ghost predicate AllSkip(types: map<string, IntType>, request: Request, usable: map<string, WindowStats>, w: nat) {
    exists bounds ::
      && request.items != [] && AllBounds(types, usable, w, bounds)
      && forall k :: 0 <= k < |request.items| ==> request.items[k].skips(bounds)
  }

  /** No key of the relation is of the blocks a window lies in. */
  ghost predicate NoKeys(types: map<string, IntType>, request: Request, usable: map<string, WindowStats>, w: nat) {
    exists min: Word, max: Word ::
      && request.relation.Keys? && LiesIn(types, usable, request.relation.filter.block, w, min, max)
      && !request.relation.filter.within(min, max)
  }

  lemma BoundsLie(types: map<string, IntType>, usable: map<string, WindowStats>, column: string, w: nat)
    requires HasWindow(usable, w) && AllState(types, usable, w)
    ensures forall min, max :: LiesIn(types, usable, column, w, min, max)
                               <==> min >= 0 && max >= 0
                                    && BlockBounds(types, usable, column, w) == Some((min as nat, max as nat))
    ensures forall min, max :: LiesIn(types, usable, column, w, min, max) ==> 0 <= min <= max <= MAX_WORD
  {
    hide States, AsSigned, IntType.Modulus, Stated;
    if column in usable && column in types && usable[column].mins[w].Some? && usable[column].maxs[w].Some? {
      var stats := usable[column];
      forall low, high | Stands(types, usable, column, w, low, high)
        ensures BlockNumberAt(types[column], AsSigned(stats.mins[w].value)) == Number(low, types[column]) <= MAX_WORD
        ensures BlockNumberAt(types[column], AsSigned(stats.maxs[w].value)) == Number(high, types[column]) <= MAX_WORD
      {
        StatedNumber(stats.mins[w].value, stats.held, low, types[column]);
        StatedNumber(stats.maxs[w].value, stats.held, high, types[column]);
      }
    }
  }

  lemma StatedNumber(statistic: int, held: IntType, value: int, stored: IntType)
    requires States(statistic, held, value, stored)
    ensures BlockNumberAt(stored, AsSigned(statistic)) == Number(value, stored) <= MAX_WORD
  {
    StatedIs(statistic, held, value, stored);
    UnsignedIs(value, stored);
  }

  lemma BoundsAll(types: map<string, IntType>, usable: map<string, WindowStats>, w: nat, bounds: Bounds)
    requires HasWindow(usable, w) && AllState(types, usable, w)
    ensures AllBounds(types, usable, w, bounds) <==> bounds == WindowBounds(types, usable, w)
  {
    hide States, Stated;
    var all := WindowBounds(types, usable, w);
    forall column, low, high | Stands(types, usable, column, w, low, high)
      ensures column in all && all[column] == (low, high)
    {
      var stats := usable[column];
      StatedIs(stats.mins[w].value, stats.held, low, types[column]);
      StatedIs(stats.maxs[w].value, stats.held, high, types[column]);
    }
    forall column | column in all ensures Stands(types, usable, column, w, all[column].0, all[column].1) {
      var low, high :| Stands(types, usable, column, w, low, high);
    }
    assert AllBounds(types, usable, w, all);
    if AllBounds(types, usable, w, bounds) {
      assert bounds.Keys == all.Keys;
      assert bounds == all;
    }
  }

  /** A window is left out exactly where its blocks lie outside the request, or every item rules it out, or no key of
      the relation is of its blocks. */
  lemma PrunedExactly(types: map<string, IntType>, request: Request, usable: map<string, WindowStats>, w: nat)
    requires HasWindow(usable, w) && AllState(types, usable, w)
    ensures Pruned(types, request, usable, w)
            <==> Outside(types, request, usable, w) || AllSkip(types, request, usable, w)
                 || NoKeys(types, request, usable, w)
  {
    hide HasWindow, AllState, Outside, AllSkip, NoKeys, BlocksPruned, ItemsPruned, KeysPruned;
    BlocksExactly(types, request, usable, w);
    ItemsExactly(types, request, usable, w);
    KeysExactly(types, request, usable, w);
  }

  lemma BlocksExactly(types: map<string, IntType>, request: Request, usable: map<string, WindowStats>, w: nat)
    requires HasWindow(usable, w) && AllState(types, usable, w)
    ensures BlocksPruned(types, request, usable, w) <==> Outside(types, request, usable, w)
  {
    hide HasWindow, AllState, LiesIn, BlockBounds;
    if request.block.Some? {
      BoundsLie(types, usable, request.block.value, w);
      if BlocksPruned(types, request, usable, w) {
        var (min, max) := BlockBounds(types, usable, request.block.value, w).value;
        assert LiesIn(types, usable, request.block.value, w, min, max);
      }
    }
  }

  lemma ItemsExactly(types: map<string, IntType>, request: Request, usable: map<string, WindowStats>, w: nat)
    requires HasWindow(usable, w) && AllState(types, usable, w)
    ensures ItemsPruned(types, request, usable, w) <==> AllSkip(types, request, usable, w)
  {
    hide HasWindow, AllState, AllBounds, WindowBounds;
    forall bounds ensures AllBounds(types, usable, w, bounds) <==> bounds == WindowBounds(types, usable, w) {
      BoundsAll(types, usable, w, bounds);
    }
    assert AllBounds(types, usable, w, WindowBounds(types, usable, w));
  }

  lemma KeysExactly(types: map<string, IntType>, request: Request, usable: map<string, WindowStats>, w: nat)
    requires HasWindow(usable, w) && AllState(types, usable, w)
    ensures KeysPruned(types, request, usable, w) <==> NoKeys(types, request, usable, w)
  {
    hide HasWindow, AllState, LiesIn, BlockBounds;
    if request.relation.Keys? {
      var column := request.relation.filter.block;
      BoundsLie(types, usable, column, w);
      if KeysPruned(types, request, usable, w) {
        var (min, max) := BlockBounds(types, usable, column, w).value;
        assert LiesIn(types, usable, column, w, min, max);
      }
    }
  }
}
