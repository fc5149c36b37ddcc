/**
 Relations that join rows by keys. A relation's keys start with the block columns on both sides,
 so the rows it joins have block columns of one join word. Whether that keeps it to a block,
 and so whether ranges can follow it one by one, comes down to the two columns' types.
 */
module RelationKeys {
  import opened Wrappers
  import opened Words
  import opened IntTypes
  import opened Weights
  import opened TableSources
  import KeySets

  /** The value that a type holds for a block number. */
  function Held(number: nat, stored: IntType): int {
    if stored.signed && number >= stored.Modulus() / 2 then number - stored.Modulus() else number
  }

  /** A type's values are one for one with its block numbers. */
  lemma HeldIs(stored: IntType, value: int)
    requires stored.Stored() && stored.Holds(value)
    ensures Unsigned(value, stored) <= MAX_WORD && Held(Unsigned(value, stored), stored) == value
  {
    HoldsIs(stored, value);
    UnsignedIs(value, stored);
    WidthBounds();
  }

  lemma NumberIs(stored: IntType, number: nat)
    requires stored.Stored() && number < stored.Modulus()
    ensures stored.Holds(Held(number, stored)) && Unsigned(Held(number, stored), stored) == number
  {
    WidthBounds();
    UnsignedIs(Held(number, stored), stored);
  }

  /** Two rows have one key: block columns of one join word, and the rest of a key the same, and not null. */
  predicate OneKey(row: Row, s: IntType, target: Row, t: IntType, left: Row -> Option<nat>, right: Row -> Option<nat>) {
    && row.block < s.Modulus() && target.block < t.Modulus()
    && StoredKey(Held(row.block, s)) == StoredKey(Held(target.block, t))
    && left(row).Some? && left(row) == right(target)
  }

  ghost predicate Within(joins: (Row, Row) -> bool, s: IntType, t: IntType, left: Row -> Option<nat>,
                         right: Row -> Option<nat>) {
    forall row, target :: joins(row, target) ==> OneKey(row, s, target, t, left, right)
  }

  /** A relation joins no rows but those of one key: a join all of them, a hierarchical one those whose addresses are
      related too. */
  ghost predicate ByKeys(joins: (Row, Row) -> bool, s: IntType, t: IntType) {
    exists left: Row -> Option<nat>, right: Row -> Option<nat> :: Within(joins, s, t, left, right)
  }

  lemma KeysConfine(joins: (Row, Row) -> bool, s: IntType, t: IntType)
    requires s.Stored() && t.Stored() && KeySets.ReadAlike(s, t) && ByKeys(joins, s, t)
    ensures Confined(Followed([], [], joins))
  {
    hide StoredKey, Unsigned, Held, IntType.Holds, KeySets.ReadAlike;
    KeySets.ReadAlikeDecides(s, t);
    var left: Row -> Option<nat>, right: Row -> Option<nat> :| Within(joins, s, t, left, right);
    forall row, target | joins(row, target) ensures row.block == target.block {
      assert OneKey(row, s, target, t, left, right);
      NumberIs(s, row.block);
      NumberIs(t, target.block);
    }
  }

  /** A key with nothing after the block. */
  function Nothing(row: Row): Option<nat> {
    Some(0)
  }

  /** The join of rows by their block columns alone. */
  function JoinBlocks(s: IntType, t: IntType): (Row, Row) -> bool {
    (row: Row, target: Row) => OneKey(row, s, target, t, Nothing, Nothing)
  }

  /** Of the block columns of a relation's two sides: every relation by their keys keeps to a block, whatever rows it
      joins, if and only if the columns read alike. */
  lemma KeysConfineExactly(s: IntType, t: IntType)
    requires s.Stored() && t.Stored()
    ensures (forall joins :: ByKeys(joins, s, t) ==> Confined(Followed([], [], joins))) <==> KeySets.ReadAlike(s, t)
  {
    hide Confined, ByKeys, KeySets.ReadAlike;
    if KeySets.ReadAlike(s, t) {
      forall joins | ByKeys(joins, s, t) ensures Confined(Followed([], [], joins)) {
        KeysConfine(joins, s, t);
      }
    } else {
      BlocksCross(s, t);
    }
  }

  /** Columns that do not read alike join two rows of different blocks. */
  lemma BlocksCross(s: IntType, t: IntType)
    requires s.Stored() && t.Stored() && !KeySets.ReadAlike(s, t)
    ensures ByKeys(JoinBlocks(s, t), s, t) && !Confined(Followed([], [], JoinBlocks(s, t)))
  {
    hide StoredKey, Unsigned, Held, IntType.Holds, KeySets.ReadAlike;
    var x, y := KeySets.ReadApart(s, t);
    HeldIs(s, x);
    HeldIs(t, y);
    UnsignedIs(x, s);
    UnsignedIs(y, t);
    var (row, target) := (Row(Unsigned(x, s), 0, 0), Row(Unsigned(y, t), 0, 0));
    assert JoinBlocks(s, t)(row, target);
    assert Within(JoinBlocks(s, t), s, t, Nothing, Nothing);
  }

  /** A source that reads rows of its own, or follows a relation by keys whose block columns read alike. */
  ghost predicate KeyedAlike(source: Source) {
    source.Followed? ==>
      exists s: IntType, t: IntType ::
        s.Stored() && t.Stored() && KeySets.ReadAlike(s, t) && ByKeys(source.joins, s, t)
  }

  /** So a range that follows relations by such keys reads what a scan of the finished tables would. */
  lemma RangeFollowsKeys(sources: seq<seq<Source>>, range: Range)
    requires forall t, i :: 0 <= t < |sources| && 0 <= i < |sources[t]| ==> KeyedAlike(sources[t][i])
    ensures TablesOf(seq(|sources|, t requires 0 <= t < |sources| => AllInRange(sources[t], range)))
            == Scan(TablesOf(sources), range)
  {
    hide ByKeys, KeySets.ReadAlike, AllInRange, TablesOf, Scan;
    forall t, i | 0 <= t < |sources| && 0 <= i < |sources[t]| ensures Confined(sources[t][i]) {
      var source := sources[t][i];
      assert KeyedAlike(source);
      if source.Followed? {
        var a: IntType, b: IntType :|
          a.Stored() && b.Stored() && KeySets.ReadAlike(a, b) && ByKeys(source.joins, a, b);
        KeysConfine(source.joins, a, b);
      }
    }
    RangeFollowsItself(sources, range);
  }
}
