/**
 A relation's keys, built from source rows and matched against a target table. Every key starts
 with the block-number column on both sides, so a target row is kept only where a source row's
 block has the same join word. The block range of the scan spans the source rows' block numbers.
 Whether the keys keep to that range, and whether their blocks may prune windows, comes down to
 the two block columns' types.
 */
module KeySets {
  import opened Wrappers
  import opened Words
  import opened IntTypes
  import opened Columnar

  /** The source rows with a complete key: each one's block, at the source column's type, and the rest of its key as
      it is held. */
  datatype KeySet = KeySet(stored: IntType, rows: seq<(int, nat)>) {
    ghost predicate Valid() {
      stored.Stored() && forall k :: 0 <= k < |rows| ==> stored.Holds(rows[k].0)
    }

    /** Whether some source row has this block's join word and this rest of a key. */
    predicate Has(block: int, rest: nat) {
      exists k :: 0 <= k < |rows| && StoredKey(rows[k].0) == StoredKey(block) && rows[k].1 == rest
    }

    /** Whether some source row's block number lies within bounds. */
    predicate HasBlockWithin(min: nat, max: nat) {
      exists k :: 0 <= k < |rows| && min <= Unsigned(rows[k].0, stored) <= max
    }

    /** The key filter of a target table: its block column, and what the rest of its key columns hold in a row. */
    function Filter(block: string, rest: Row -> Option<nat>): KeyFilter {
      KeyFilter(block,
                (row: Row) =>
                  Some(ValueOf(row, block).Some? && rest(row).Some? && Has(ValueOf(row, block).value, rest(row).value)),
                (min: Word, max: Word) => HasBlockWithin(min, max),
                false)
    }
  }

  /** A relation's request: its keys, and the blocks its source rows span, or more. */
  ghost predicate Follows(request: Request, set_: KeySet, block: string, rest: Row -> Option<nat>) {
    && request.block == Some(block) && request.relation == Keys(set_.Filter(block, rest)) && request.items == []
    && request.from.Some? && request.to.Some?
    && forall k :: 0 <= k < |set_.rows| ==> InBlocks(request, Unsigned(set_.rows[k].0, set_.stored))
  }

  /** A relation has a block within bounds exactly where one of its source rows' numbers is: the value itself, or,
      below zero, what its bits are read unsigned. */
  lemma BlockWithinExactly(set_: KeySet, min: nat, max: nat)
    requires set_.Valid()
    ensures set_.HasBlockWithin(min, max)
            <==> exists k :: 0 <= k < |set_.rows|
                             && var block := set_.rows[k].0;
                                min <= (if block < 0 then block + set_.stored.Modulus() else block) <= max
  {
    hide Unsigned, IntType.Holds, IntType.Stored;
    forall k | 0 <= k < |set_.rows|
      ensures var block := set_.rows[k].0;
              Unsigned(block, set_.stored) == if block < 0 then block + set_.stored.Modulus() else block
    {
      UnsignedIs(set_.rows[k].0, set_.stored);
    }
  }

  // ----- when two block columns read alike -----

  /** Two types at which values of one join word are one block number: both unsigned; both signed and of one width; or
      of unlike sign, and the unsigned one narrower than 64 bits or both of 64 bits. */
  predicate ReadAlike(s: IntType, t: IntType) {
    if s.signed == t.signed then !s.signed || s.width == t.width
    else if s.signed then t.width < 8 || s.width == 8
    else s.width < 8 || t.width == 8
  }

  ghost predicate SameBlocks(s: IntType, t: IntType) {
    forall x, y :: s.Holds(x) && t.Holds(y) && StoredKey(x) == StoredKey(y) ==> Unsigned(x, s) == Unsigned(y, t)
  }

  lemma ReadAlikeDecides(s: IntType, t: IntType)
    requires s.Stored() && t.Stored()
    ensures SameBlocks(s, t) <==> ReadAlike(s, t)
  {
    hide StoredKey, IntType.Holds, Unsigned;
    if ReadAlike(s, t) {
      forall x, y | s.Holds(x) && t.Holds(y) && StoredKey(x) == StoredKey(y) ensures Unsigned(x, s) == Unsigned(y, t) {
        HoldsIs(s, x);
        HoldsIs(t, y);
        SameKey(x, y);
        UnsignedIs(x, s);
        UnsignedIs(y, t);
        Widest(s, x);
        Widest(t, y);
      }
    } else {
      var x, y := ReadApart(s, t);
    }
  }

  /** Only an unsigned type of 64 bits holds a value from 2^63 on. */
  lemma Widest(s: IntType, x: int)
    requires s.Stored() && s.Holds(x)
    ensures s.width < 8 || s.signed ==> x < HALF
    ensures s.width == 8 ==> s.Modulus() == WORD
  {
    WidthBounds();
  }

  /** Values of one join word that are two block numbers: -1 at two widths, or -1 and 2^64 - 1. */
  lemma ReadApart(s: IntType, t: IntType) returns (x: int, y: int)
    requires s.Stored() && t.Stored() && !ReadAlike(s, t)
    ensures s.Holds(x) && t.Holds(y) && StoredKey(x) == StoredKey(y) && Unsigned(x, s) != Unsigned(y, t)
    ensures Unsigned(x, s) <= MAX_WORD
  {
    x, y := if s.signed then -1 else WORD - 1, if t.signed then -1 else WORD - 1;
    WidthBounds();
    assert s.Holds(x) && t.Holds(y);
    hide IntType.Holds, StoredKey, Unsigned;
    KeyIs(-1);
    KeyIs(WORD - 1);
    UnsignedIs(x, s);
    UnsignedIs(y, t);
    WidthsApart(s, t);
  }

  lemma WidthsApart(s: IntType, t: IntType)
    requires s.Stored() && t.Stored() && s.width != t.width
    ensures s.Modulus() != t.Modulus()
  {
    WidthBounds();
  }

  // ----- what that decides -----

  /** The keys keep only rows inside the range, and rule blocks out only where they keep none. */
  ghost predicate KeysKeep(types: map<string, IntType>, request: Request) {
    && KeptInRange(types, request)
    && (request.relation.Keys? ==> WithinRight(types, request.relation.filter))
  }

  ghost predicate Applies(request: Request, set_: KeySet, block: string, rest: Row -> Option<nat>, stored: IntType) {
    set_.stored == stored && set_.Valid() && Follows(request, set_, block, rest)
  }

  lemma KeptOfSource(types: map<string, IntType>, request: Request, set_: KeySet, block: string,
                     rest: Row -> Option<nat>,
                     row: Row)
    requires block in types && SameBlocks(set_.stored, types[block]) && set_.Valid() && RowTyped(types, row)
    requires Yes(set_.Filter(block, rest).mask(row))
    ensures BlockOf(types, row, block).Some?
    ensures exists k :: 0 <= k < |set_.rows|
              && Unsigned(set_.rows[k].0, set_.stored) == BlockOf(types, row, block).value
  {
    hide IntType.Holds, IntType.Stored, StoredKey, Unsigned;
    var value := ValueOf(row, block).value;
    var k :| 0 <= k < |set_.rows| && StoredKey(set_.rows[k].0) == StoredKey(value) && set_.rows[k].1 == rest(row).value;
    assert Unsigned(set_.rows[k].0, set_.stored) == Unsigned(value, types[block]);
  }

  /** Of a source's and a target's block column: whatever rows the source has, its keys keep to the range they were
      given and prune only windows without a row they keep, if and only if the two columns read alike. */
  lemma KeysKeepExactly(types: map<string, IntType>, stored: IntType, block: string)
    requires stored.Stored() && block in types && forall column :: column in types ==> types[column].Stored()
    ensures (forall request, set_, rest :: Applies(request, set_, block, rest, stored) ==> KeysKeep(types, request))
            <==> ReadAlike(stored, types[block])
  {
    hide ReadAlike, SameBlocks, KeptInRange, WithinRight;
    ReadAlikeDecides(stored, types[block]);
    if ReadAlike(stored, types[block]) {
      forall request, set_, rest | Applies(request, set_, block, rest, stored) ensures KeysKeep(types, request) {
        KeysInRange(types, request, set_, block, rest);
        BlocksRight(types, set_, block, rest);
      }
    } else {
      var request, set_, rest := KeyOutOfRange(types, stored, block);
      assert Applies(request, set_, block, rest, stored) && !KeysKeep(types, request);
    }
  }

  lemma KeysInRange(types: map<string, IntType>, request: Request, set_: KeySet, block: string,
                    rest: Row -> Option<nat>)
    requires block in types && SameBlocks(set_.stored, types[block]) && set_.Valid()
             && Follows(request, set_, block, rest)
    ensures KeptInRange(types, request)
  {
    hide BlockOf, Unsigned, SameBlocks, KeySet.Filter, KeySet.Valid, RowTyped;
    forall row: Row | RowTyped(types, row) && Keeps(types, request, row) ensures !OutOfRange(types, request, row) {
      KeptOfSource(types, request, set_, block, rest, row);
    }
  }

  lemma BlocksRight(types: map<string, IntType>, set_: KeySet, block: string, rest: Row -> Option<nat>)
    requires block in types && SameBlocks(set_.stored, types[block]) && set_.Valid()
    ensures WithinRight(types, set_.Filter(block, rest))
  {
    hide BlockOf, Unsigned, SameBlocks, KeySet.Valid, RowTyped;
    var filter := set_.Filter(block, rest);
    var request := Request(None, None, None, NoRelation, [], []);
    forall row: Row, min: Word, max: Word |
      RowTyped(types, row) && !filter.within(min, max)
      && (BlockOf(types, row, block).None? || min <= BlockOf(types, row, block).value <= max)
      ensures !Yes(filter.mask(row))
    {
      if Yes(filter.mask(row)) {
        KeptOfSource(types, request, set_, block, rest, row);
      }
    }
  }

  /** Where the columns do not read alike, a source row whose key keeps a row outside the range. */
  lemma KeyOutOfRange(types: map<string, IntType>, stored: IntType, block: string)
    returns (request: Request, set_: KeySet, rest: Row -> Option<nat>)
    requires stored.Stored() && block in types && forall column :: column in types ==> types[column].Stored()
    requires !ReadAlike(stored, types[block])
    ensures Applies(request, set_, block, rest, stored) && !KeptInRange(types, request)
  {
    var x, y := ReadApart(stored, types[block]);
    set_ := KeySet(stored, [(x, 0)]);
    rest := (row: Row) => Some(0);
    var number: Word := Unsigned(x, stored);
    request := Request(Some(block), Some(number), Some(number), Keys(set_.Filter(block, rest)), [], []);
    var row: Row := map[block := Some(y)];
    hide ReadAlike, Unsigned, StoredKey, IntType.Holds, IntType.Stored;
    assert RowTyped(types, row) && BlockOf(types, row, block) == Some(Unsigned(y, types[block]));
    assert set_.rows[0] == (x, 0);
    assert set_.Has(y, 0);
    assert Keeps(types, request, row) && OutOfRange(types, request, row);
  }
}
