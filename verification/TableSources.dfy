/**
 Where a table's rows come from: its own scan, and the relations that follow rows of other
 tables to it. A range reads only the rows in it and follows relations from those alone, and
 still has of every table the rows the whole request has there, as long as relations keep to a
 block.
 */
module TableSources {
  import opened Wrappers
  import opened Weights
  import opened PageSelection

  /** Rows a scan returns, or the targets a relation finds for the rows that feed it. */
  datatype Source = Own(rows: seq<Row>) | Followed(feeding: seq<Row>, targets: seq<Row>, joins: (Row, Row) -> bool)

  function RowsOf(source: Source): seq<Row> {
    match source
    case Own(rows) => rows
    case Followed(feeding, targets, joins) => Related(feeding, targets, joins)
  }

  function Gathered(sources: seq<Source>): seq<Row> {
    if sources == [] then [] else Gathered(sources[..|sources| - 1]) + RowsOf(sources[|sources| - 1])
  }

  /** Each table with the rows of all its sources, which are compared where there are several. */
  function TablesOf(sources: seq<seq<Source>>): (tables: seq<Table>)
    ensures |tables| == |sources|
    ensures forall i :: 0 <= i < |tables| ==> (tables[i].several <==> |sources[i]| >= 2)
  {
    seq(|sources|, i requires 0 <= i < |sources| => Table(|sources[i]| > 1, Gathered(sources[i])))
  }

  /** What a range reads for a source: its scan's rows there, or the rows there that feed it and its targets there. */
  function InRange(source: Source, range: Range): Source {
    match source
    case Own(rows) => Own(RowsIn(rows, range))
    case Followed(feeding, targets, joins) => Followed(RowsIn(feeding, range), RowsIn(targets, range), joins)
  }

  function AllInRange(sources: seq<Source>, range: Range): seq<Source> {
    seq(|sources|, i requires 0 <= i < |sources| => InRange(sources[i], range))
  }

  /** A relation joins rows of one block. */
  ghost predicate Confined(source: Source) {
    source.Followed? ==> forall row, target :: source.joins(row, target) ==> row.block == target.block
  }

  /** A source reads in a range what the whole request's holds of it. */
  predicate ReadAlike(source: Source, range: Range) {
    RowsOf(InRange(source, range)) == RowsIn(RowsOf(source), range)
  }

  lemma ConfinedAlike(source: Source, range: Range)
    requires Confined(source)
    ensures ReadAlike(source, range)
  {
    hide Related, RowsIn;
    if source.Followed? {
      RelationInRange(source.feeding, source.targets, source.joins, range);
    }
  }

  /** A relation is read alike in every range, whatever rows it is given, exactly where it keeps to a block. */
  lemma ConfinedExactly(joins: (Row, Row) -> bool)
    ensures Confined(Followed([], [], joins))
            <==> forall feeding, targets, range :: ReadAlike(Followed(feeding, targets, joins), range)
  {
    hide ReadAlike;
    if Confined(Followed([], [], joins)) {
      forall feeding, targets, range ensures ReadAlike(Followed(feeding, targets, joins), range) {
        ConfinedAlike(Followed(feeding, targets, joins), range);
      }
    } else {
      var row, target :| joins(row, target) && row.block != target.block;
      CrossingLost(joins, row, target);
    }
  }

  /** A target of another block is lost to the range that has only that block. */
  lemma CrossingLost(joins: (Row, Row) -> bool, row: Row, target: Row)
    requires joins(row, target) && row.block != target.block
    ensures !ReadAlike(Followed([row], [target], joins), Range(target.block, Some(target.block)))
  {
    var range := Range(target.block, Some(target.block));
    assert RowsIn([row], range) == [] by {
      RowsInAppend([], row, range);
      assert [] + [row] == [row];
    }
    assert RowsIn([target], range) == [target] by {
      RowsInAppend([], target, range);
      assert [] + [target] == [target];
    }
    assert row in [row];
    assert Related([row], [target], joins) == [target];
    assert Related([], [target], joins) == [];
  }

  lemma {:induction false} GatheredInRange(sources: seq<Source>, range: Range)
    requires forall i :: 0 <= i < |sources| ==> Confined(sources[i])
    ensures Gathered(AllInRange(sources, range)) == RowsIn(Gathered(sources), range)
  {
    hide Confined, RowsIn, RowsOf, InRange;
    if sources == [] {
      assert RowsIn([], range) == [] by {
        NothingIn(range);
      }
    } else {
      var (before, last) := (sources[..|sources| - 1], sources[|sources| - 1]);
      GatheredInRange(before, range);
      RowsInConcat(Gathered(before), RowsOf(last), range);
      ConfinedAlike(last, range);
      assert AllInRange(sources, range)[..|before|] == AllInRange(before, range);
    }
  }

  lemma NothingIn(range: Range)
    ensures RowsIn([], range) == []
  {
  }

  /** A range that scans its own rows and follows relations from those reads what a scan of the finished tables
      would. */
  lemma RangeFollowsItself(sources: seq<seq<Source>>, range: Range)
    requires forall t, i :: 0 <= t < |sources| && 0 <= i < |sources[t]| ==> Confined(sources[t][i])
    ensures TablesOf(seq(|sources|, t requires 0 <= t < |sources| => AllInRange(sources[t], range)))
            == Scan(TablesOf(sources), range)
  {
    hide Confined, Gathered;
    forall t | 0 <= t < |sources|
      ensures Gathered(AllInRange(sources[t], range)) == RowsIn(Gathered(sources[t]), range)
    {
      GatheredInRange(sources[t], range);
    }
  }
}
