/**
 Two readings of an address column. The comparison with every source reads an element's bits
 unsigned and keeps 32 of them; the index reads its value sign-extended to a word. Whether the
 two relate the same rows comes down to the types the two sides' elements are stored at.
 */
module AddressReadings {
  import opened Wrappers
  import opened IntTypes
  import opened Addresses
  import opened SourceRows

  const UINT32 := 0x1_0000_0000

  /** A row's address: none, a path of integers as its column stores them, or a list of something else. */
  datatype Address = NoAddress | Elements(stored: IntType, values: seq<int>) | Foreign

  /** What an address column holds. */
  datatype AddressColumn = Ints(stored: IntType) | OtherList

  ghost predicate OfColumn(address: Address, column: AddressColumn) {
    match address
    case NoAddress => true
    case Elements(stored, values) =>
      column == Ints(stored) && stored.Stored() && forall i :: 0 <= i < |values| ==> stored.Holds(values[i])
    case Foreign => column == OtherList
  }

  /** An element as the comparison with every source reads it. */
  function Compared(value: int, stored: IntType): nat {
    Unsigned(value, stored) % UINT32
  }

  /** A path as the comparison reads it: a list of something else has no elements, and so is the root. */
  function ComparedPath(address: Address): Option<Path> {
    match address
    case NoAddress => None
    case Elements(stored, values) => Some(seq(|values|, i requires 0 <= i < |values| => Compared(values[i], stored)))
    case Foreign => Some([])
  }

  /** A path as the index reads it: a list of something else is no address. */
  function IndexedPath(address: Address): Option<Path> {
    match address
    case NoAddress => None
    case Elements(_, values) => Some(seq(|values|, i requires 0 <= i < |values| => StoredKey(values[i])))
    case Foreign => None
  }

  predicate Related(source: Option<Path>, target: Option<Path>, mode: Mode, inclusive: bool) {
    source.Some? && target.Some? && Relates(source.value, target.value, mode, inclusive)
  }

  // ----- when the readings agree -----

  /** Types of at most 32 bits of which neither reads another's negative value as one of its own: the same type, two
      unsigned ones, or a signed one beside a narrower unsigned one. */
  predicate ElementsAlike(s: IntType, t: IntType) {
    && s.width <= 4 && t.width <= 4
    && (s == t || (!s.signed && !t.signed) || (s.signed && !t.signed && t.width < s.width)
        || (t.signed && !s.signed && s.width < t.width))
  }

  ghost predicate EqualAlike(s: IntType, t: IntType) {
    forall x, y :: s.Holds(x) && t.Holds(y) ==> (Compared(x, s) == Compared(y, t) <==> StoredKey(x) == StoredKey(y))
  }

  /** Both readings take the same elements of two types as equal, if and only if the types are alike. */
  lemma ElementsDecide(s: IntType, t: IntType)
    requires s.Stored() && t.Stored()
    ensures EqualAlike(s, t) <==> ElementsAlike(s, t)
  {
    hide StoredKey, IntType.Holds, Compared;
    if ElementsAlike(s, t) {
      forall x, y | s.Holds(x) && t.Holds(y)
        ensures Compared(x, s) == Compared(y, t) <==> StoredKey(x) == StoredKey(y)
      {
        HoldsIs(s, x);
        HoldsIs(t, y);
        SameKey(x, y);
        NarrowCompared(s, x);
        NarrowCompared(t, y);
        UnsignedIs(x, s);
        UnsignedIs(y, t);
        Halves(s, t, x, y);
      }
    } else {
      var x, y := ElementsApart(s, t);
    }
  }

  /** Of 32 bits all are kept. */
  lemma NarrowCompared(s: IntType, x: int)
    requires s.Stored() && s.Holds(x) && s.width <= 4
    ensures Compared(x, s) == Unsigned(x, s) && x < UINT32 && x >= -UINT32
  {
    WidthBounds();
    UnsignedIs(x, s);
    hide Order.Bound;
  }

  /** A value of a narrower type is below the wider one's sign bit. */
  lemma Halves(s: IntType, t: IntType, x: int, y: int)
    requires s.Stored() && t.Stored() && s.Holds(x) && t.Holds(y)
    ensures s.signed && !t.signed && t.width < s.width ==> 0 <= y < s.Modulus() / 2 && x < s.Modulus() / 2
    ensures t.signed && !s.signed && s.width < t.width ==> 0 <= x < t.Modulus() / 2 && y < t.Modulus() / 2
    ensures s.signed ==> -(s.Modulus() / 2) <= x
    ensures t.signed ==> -(t.Modulus() / 2) <= y
    ensures s.Modulus() % 2 == 0 && t.Modulus() % 2 == 0
  {
    WidthBounds();
    hide Order.Bound;
  }

  /** Elements one reading takes as equal and the other does not. */
  lemma ElementsApart(s: IntType, t: IntType) returns (x: int, y: int)
    requires s.Stored() && t.Stored() && !ElementsAlike(s, t)
    ensures s.Holds(x) && t.Holds(y)
    ensures Compared(x, s) == Compared(y, t) <==> StoredKey(x) != StoredKey(y)
  {
    WidthBounds();
    hide Order.Bound;
    if s.width == 8 {
      x, y := UINT32 + 5, 5;
    } else if t.width == 8 {
      x, y := 5, UINT32 + 5;
    } else if s.signed && t.signed {
      x, y := -1, -1;
    } else if s.signed {
      x, y := -1, s.Modulus() - 1;
    } else {
      x, y := t.Modulus() - 1, -1;
    }
    assert s.Holds(x) && t.Holds(y);
    UnsignedIs(x, s);
    UnsignedIs(y, t);
    hide StoredKey, Unsigned, IntType.Holds;
    SameKey(x, y);
  }

  predicate ColumnsAlike(c: AddressColumn, d: AddressColumn) {
    c.Ints? && d.Ints? && ElementsAlike(c.stored, d.stored)
  }

  ghost predicate RelatedAlike(a: Address, b: Address) {
    forall mode, inclusive ::
      Related(ComparedPath(a), ComparedPath(b), mode, inclusive)
      <==> Related(IndexedPath(a), IndexedPath(b), mode, inclusive)
  }

  lemma PathsAlike(a: Address, b: Address, c: AddressColumn, d: AddressColumn)
    requires OfColumn(a, c) && OfColumn(b, d) && ColumnsAlike(c, d)
    ensures RelatedAlike(a, b)
  {
    hide StoredKey, Compared, IntType.Holds, IntType.Stored, ElementsAlike;
    if a.Elements? && b.Elements? {
      ElementsDecide(c.stored, d.stored);
      var (p, q) := (ComparedPath(a).value, ComparedPath(b).value);
      var (k, l) := (IndexedPath(a).value, IndexedPath(b).value);
      forall i | 0 <= i < |p| && i < |q| ensures p[i] == q[i] <==> k[i] == l[i] {
      }
      PrefixesAlike(p, q, k, l);
      PrefixesAlike(q, p, l, k);
    }
  }

  lemma PrefixesAlike(p: Path, q: Path, k: Path, l: Path)
    requires |p| == |k| && |q| == |l| && forall i :: 0 <= i < |p| && i < |q| ==> (p[i] == q[i] <==> k[i] == l[i])
    ensures |p| <= |q| ==> (q[..|p|] == p <==> l[..|k|] == k)
  {
    if |p| <= |q| {
      if q[..|p|] == p {
        assert forall i :: 0 <= i < |p| ==> q[..|p|][i] == p[i];
      }
      if l[..|k|] == k {
        assert forall i :: 0 <= i < |k| ==> l[..|k|][i] == k[i];
      }
    }
  }

  /** Of two address columns: the comparison and the index relate the same of their addresses, whatever they hold and
      whichever relation is asked, if and only if both are paths of integers of types alike. */
  lemma ReadingsAgree(c: AddressColumn, d: AddressColumn)
    requires (c.Ints? ==> c.stored.Stored()) && (d.Ints? ==> d.stored.Stored())
    ensures (forall a, b :: OfColumn(a, c) && OfColumn(b, d) ==> RelatedAlike(a, b)) <==> ColumnsAlike(c, d)
  {
    hide RelatedAlike, ElementsAlike;
    if ColumnsAlike(c, d) {
      forall a, b | OfColumn(a, c) && OfColumn(b, d) ensures RelatedAlike(a, b) {
        PathsAlike(a, b, c, d);
      }
    } else {
      var a, b := RelatedApart(c, d);
      assert !RelatedAlike(a, b);
    }
  }

  lemma RelatedApart(c: AddressColumn, d: AddressColumn) returns (a: Address, b: Address)
    requires (c.Ints? ==> c.stored.Stored()) && (d.Ints? ==> d.stored.Stored()) && !ColumnsAlike(c, d)
    ensures OfColumn(a, c) && OfColumn(b, d) && !RelatedAlike(a, b)
  {
    hide StoredKey, Compared, IntType.Holds, ElementsAlike;
    if c.Ints? && d.Ints? {
      var x, y := ElementsApart(c.stored, d.stored);
      a, b := Elements(c.stored, [x]), Elements(d.stored, [y]);
      OneElement(x, y, c.stored, d.stored);
      assert Related(ComparedPath(a), ComparedPath(b), Children, true)
             != Related(IndexedPath(a), IndexedPath(b), Children, true);
    } else {
      a := if c.Ints? then Elements(c.stored, []) else Foreign;
      b := if d.Ints? then Elements(d.stored, []) else Foreign;
      assert ComparedPath(a).value == [] && ComparedPath(b).value == [];
      assert Related(ComparedPath(a), ComparedPath(b), Children, true)
             && !Related(IndexedPath(a), IndexedPath(b), Children, true);
    }
  }

  lemma OneElement(x: int, y: int, s: IntType, t: IntType)
    ensures Related(ComparedPath(Elements(s, [x])), ComparedPath(Elements(t, [y])), Children, true)
            <==> Compared(x, s) == Compared(y, t)
    ensures Related(IndexedPath(Elements(s, [x])), IndexedPath(Elements(t, [y])), Children, true)
            <==> StoredKey(x) == StoredKey(y)
  {
    hide StoredKey, Compared;
    assert [Compared(y, t)][..1] == [Compared(y, t)] && [StoredKey(y)][..1] == [StoredKey(y)];
    assert ComparedPath(Elements(s, [x])).value == [Compared(x, s)]
           && ComparedPath(Elements(t, [y])).value == [Compared(y, t)];
    assert IndexedPath(Elements(s, [x])).value == [StoredKey(x)]
           && IndexedPath(Elements(t, [y])).value == [StoredKey(y)];
  }

  /** A signed 16-bit -1 and an unsigned 16-bit 65535 are one element to the comparison and two to the index; an
      unsigned 64-bit 2^32 + 5 and a 5 too. */
  lemma ReadingsDiffer()
    ensures Compared(-1, IntType(2, true)) == Compared(65535, IntType(2, false)) && StoredKey(-1) != StoredKey(65535)
    ensures var wide := IntType(8, false);
            Compared(UINT32 + 5, wide) == Compared(5, wide) && StoredKey(UINT32 + 5) != StoredKey(5)
    ensures !ElementsAlike(IntType(2, true), IntType(2, false))
  {
    WidthBounds();
    UnsignedIs(-1, IntType(2, true));
    UnsignedIs(65535, IntType(2, false));
    UnsignedIs(UINT32 + 5, IntType(8, false));
    UnsignedIs(5, IntType(8, false));
    hide StoredKey, Unsigned;
    SameKey(-1, 65535);
    SameKey(UINT32 + 5, 5);
  }

  // ----- rows -----

  /** A row as its columns store it. */
  datatype TypedRow<Key> = TypedRow(key: Option<Key>, address: Address)

  function ComparedRow<Key>(row: TypedRow<Key>): Source<Key> {
    Source(row.key, ComparedPath(row.address))
  }

  function IndexedRow<Key>(row: TypedRow<Key>): Source<Key> {
    Source(row.key, IndexedPath(row.address))
  }

  function ComparedRows<Key>(rows: seq<TypedRow<Key>>): (read: seq<Source<Key>>)
    ensures |read| == |rows|
  {
    seq(|rows|, i requires 0 <= i < |rows| => ComparedRow(rows[i]))
  }

  function IndexedRows<Key>(rows: seq<TypedRow<Key>>): (read: seq<Source<Key>>)
    ensures |read| == |rows|
  {
    seq(|rows|, i requires 0 <= i < |rows| => IndexedRow(rows[i]))
  }

  ghost predicate Alike<Key>(sources: seq<TypedRow<Key>>, target: TypedRow<Key>) {
    forall i :: 0 <= i < |sources| ==> RelatedAlike(sources[i].address, target.address)
  }

  ghost predicate MatchesBy<Key(!new)>(sources: seq<Source<Key>>, target: Source<Key>, mode: Mode,
                                       inclusive: bool, i: nat) {
    i < |sources| && target.key.Some? && sources[i].key == target.key
    && Related(sources[i].address, target.address, mode, inclusive)
  }

  lemma MatchesIs<Key(!new)>(sources: seq<Source<Key>>, target: Source<Key>, mode: Mode, inclusive: bool)
    ensures Matches(sources, target, mode, inclusive)
            <==> exists i: nat :: MatchesBy(sources, target, mode, inclusive, i)
  {
    hide Relates;
    if Matches(sources, target, mode, inclusive) {
      var path :| Kept(sources, target.key.value, path) && Relates(path, target.address.value, mode, inclusive);
      var i :| 0 <= i < |sources| && sources[i] == Source(Some(target.key.value), Some(path));
      assert MatchesBy(sources, target, mode, inclusive, i);
    }
    if i: nat :| MatchesBy(sources, target, mode, inclusive, i) {
      assert sources[i] == Source(Some(target.key.value), Some(sources[i].address.value));
      assert Kept(sources, target.key.value, sources[i].address.value);
    }
  }

  /** So the index keeps a row the comparison with every source keeps, where the readings agree on the source rows'
      addresses and its own. */
  lemma MasksAgree<Key(!new)>(sources: seq<TypedRow<Key>>, target: TypedRow<Key>, mode: Mode, inclusive: bool)
    requires Alike(sources, target)
    ensures Matches(ComparedRows(sources), ComparedRow(target), mode, inclusive)
            <==> Matches(IndexedRows(sources), IndexedRow(target), mode, inclusive)
  {
    hide Related, ComparedPath, IndexedPath, Matches;
    MatchesIs(ComparedRows(sources), ComparedRow(target), mode, inclusive);
    MatchesIs(IndexedRows(sources), IndexedRow(target), mode, inclusive);
    forall i: nat | i < |sources|
      ensures MatchesBy(ComparedRows(sources), ComparedRow(target), mode, inclusive, i)
              <==> MatchesBy(IndexedRows(sources), IndexedRow(target), mode, inclusive, i)
    {
      assert RelatedAlike(sources[i].address, target.address);
    }
  }
}
