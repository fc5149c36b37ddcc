/**
 The hash semi-join: key columns written one after the other as bytes, the build side's keys
 in a set, and the probe side's looked up there. For columns of matching kinds the bytes tell
 rows apart exactly where some column does, so a probe row is kept exactly when some build row
 has all key columns present and equal.
 */
module SemiJoin {
  import opened Wrappers
  import Order
  import opened IntTypes

  type Bytes = seq<nat>

  const LENGTH := 0x1_0000_0000

  /** A key column's value in a row. */
  datatype Cell =
    | Null
    | Int(value: int)
    | Text(text: Bytes)
    | Bool(flag: bool)
    | Fixed(fixed: Bytes)
    | IntList(items: seq<int>)

  /** The kind of a key column in a batch, integers at the type they are stored at; a column of any other type is
      refused. */
  datatype Kind = IntKind(stored: IntType) | TextKind | BoolKind | FixedKind(width: nat) | ListKind(element: IntType)

  ghost predicate OfKind(cell: Cell, kind: Kind) {
    match cell
    case Null => true
    case Int(value) => kind.IntKind? && kind.stored.Stored() && kind.stored.Holds(value)
    case Text(text) => kind == TextKind && |text| < LENGTH
    case Bool(_) => kind == BoolKind
    case Fixed(fixed) => kind == FixedKind(|fixed|)
    case IntList(items) => kind.ListKind? && |items| < LENGTH && HoldsAll(items, kind.element)
  }

  ghost predicate HoldsAll(items: seq<int>, stored: IntType) {
    stored.Stored() && forall i :: 0 <= i < |items| ==> stored.Holds(items[i])
  }

  /** Columns of matching kinds: integers match whatever types store them, fixed bytes only at one width. */
  predicate Alike(k: Kind, l: Kind) {
    match k
    case IntKind(_) => l.IntKind?
    case ListKind(_) => l.ListKind?
    case _ => k == l
  }

  ghost predicate AllAlike(ks: seq<Kind>, ls: seq<Kind>) {
    |ks| == |ls| && forall i :: 0 <= i < |ks| ==> Alike(ks[i], ls[i])
  }

  // ----- the bytes -----

  /** A number in `width` bytes, the lowest first. */
  function LittleEndian(n: nat, width: nat): (bytes: Bytes)
    ensures |bytes| == width
  {
    if width == 0 then [] else [n % 256] + LittleEndian(n / 256, width - 1)
  }

  function Keys(items: seq<int>): Bytes {
    if items == [] then [] else LittleEndian(StoredKey(items[0]), 8) + Keys(items[1..])
  }

  /** What a value appends. A length is written in four bytes, and what they cannot hold is cut off. */
  function Encoded(cell: Cell): Bytes
    requires !cell.Null?
  {
    match cell
    case Int(value) => LittleEndian(StoredKey(value), 8)
    case Text(text) => LittleEndian(|text| % LENGTH, 4) + text
    case Bool(flag) => [if flag then 1 else 0]
    case Fixed(fixed) => fixed
    case IntList(items) => LittleEndian(|items| % LENGTH, 4) + Keys(items)
  }

  type Row = seq<Cell>

  predicate Complete(row: Row) {
    forall i :: 0 <= i < |row| ==> !row[i].Null?
  }

  /** The composite key of a row without nulls. */
  function KeyOf(row: Row): Bytes
    requires Complete(row)
  {
    if row == [] then [] else Encoded(row[0]) + KeyOf(row[1..])
  }

  // ----- equality -----

  /** Values the join takes as equal: integers by their words, everything else as it is. */
  predicate Same(a: Cell, b: Cell) {
    match (a, b)
    case (Int(x), Int(y)) => StoredKey(x) == StoredKey(y)
    case (IntList(x), IntList(y)) => |x| == |y| && forall i :: 0 <= i < |x| ==> StoredKey(x[i]) == StoredKey(y[i])
    case _ => a == b
  }

  predicate AllSame(a: Row, b: Row) {
    |a| == |b| && forall i :: 0 <= i < |a| ==> Same(a[i], b[i])
  }

  /** A signed -1 joins an unsigned 2^64 - 1, which it does not equal. */
  lemma MinusOneJoins()
    ensures Same(Int(-1), Int(WORD - 1)) && -1 != WORD - 1
  {
    KeyIs(-1);
    KeyIs(WORD - 1);
  }

  lemma {:induction false} LittleEndianInjective(a: nat, b: nat, width: nat)
    requires a < Order.Bound(width) && b < Order.Bound(width) && LittleEndian(a, width) == LittleEndian(b, width)
    ensures a == b
  {
    if width > 0 {
      var (x, y) := (LittleEndian(a, width), LittleEndian(b, width));
      assert x[0] == a % 256 && y[0] == b % 256;
      assert x[1..] == LittleEndian(a / 256, width - 1) && y[1..] == LittleEndian(b / 256, width - 1);
      LittleEndianInjective(a / 256, b / 256, width - 1);
    }
  }

  /** Equal heads of one length leave equal tails. */
  lemma Heads(a: Bytes, b: Bytes, x: Bytes, y: Bytes)
    requires |a| == |b| && a + x == b + y
    ensures a == b && x == y
  {
    assert a == (a + x)[..|a|] && b == (b + y)[..|b|];
    assert x == (a + x)[|a|..] && y == (b + y)[|b|..];
  }

  lemma WordsTell(a: int, b: int, x: Bytes, y: Bytes)
    ensures LittleEndian(StoredKey(a), 8) + x == LittleEndian(StoredKey(b), 8) + y
            <==> StoredKey(a) == StoredKey(b) && x == y
  {
    hide LittleEndian, Order.Bound, StoredKey;
    WidthBounds();
    if LittleEndian(StoredKey(a), 8) + x == LittleEndian(StoredKey(b), 8) + y {
      Heads(LittleEndian(StoredKey(a), 8), LittleEndian(StoredKey(b), 8), x, y);
      LittleEndianInjective(StoredKey(a), StoredKey(b), 8);
    }
  }

  lemma LengthsTell(a: nat, b: nat, x: Bytes, y: Bytes)
    requires a < LENGTH && b < LENGTH
    ensures LittleEndian(a % LENGTH, 4) + x == LittleEndian(b % LENGTH, 4) + y <==> a == b && x == y
  {
    hide LittleEndian, Order.Bound;
    WidthBounds();
    if LittleEndian(a % LENGTH, 4) + x == LittleEndian(b % LENGTH, 4) + y {
      Heads(LittleEndian(a % LENGTH, 4), LittleEndian(b % LENGTH, 4), x, y);
      LittleEndianInjective(a, b, 4);
    }
  }

  lemma {:induction false} ListsTell(a: seq<int>, b: seq<int>, x: Bytes, y: Bytes)
    requires |a| == |b|
    ensures Keys(a) + x == Keys(b) + y <==> (forall i :: 0 <= i < |a| ==> StoredKey(a[i]) == StoredKey(b[i])) && x == y
  {
    hide LittleEndian, StoredKey;
    if a == [] {
      assert Keys(a) + x == x && Keys(b) + y == y;
    } else {
      assert Keys(a) + x == LittleEndian(StoredKey(a[0]), 8) + (Keys(a[1..]) + x);
      assert Keys(b) + y == LittleEndian(StoredKey(b[0]), 8) + (Keys(b[1..]) + y);
      WordsTell(a[0], b[0], Keys(a[1..]) + x, Keys(b[1..]) + y);
      ListsTell(a[1..], b[1..], x, y);
      assert forall i :: 0 < i < |a| ==> a[i] == a[1..][i - 1] && b[i] == b[1..][i - 1];
      assert forall i :: 0 <= i < |a| - 1 ==> a[1..][i] == a[i + 1] && b[1..][i] == b[i + 1];
    }
  }

  /** Of two values of matching kinds, followed by anything, the bytes are equal exactly when the values and what
      follows are. */
  lemma CellsTell(a: Cell, b: Cell, k: Kind, l: Kind, x: Bytes, y: Bytes)
    requires OfKind(a, k) && OfKind(b, l) && Alike(k, l) && !a.Null? && !b.Null?
    ensures Encoded(a) + x == Encoded(b) + y <==> Same(a, b) && x == y
  {
    hide LittleEndian, StoredKey, Keys;
    match (a, b) {
      case (Int(v), Int(w)) => WordsTell(v, w, x, y);
      case (Text(s), Text(t)) =>
        assert Encoded(a) + x == LittleEndian(|s| % LENGTH, 4) + (s + x);
        assert Encoded(b) + y == LittleEndian(|t| % LENGTH, 4) + (t + y);
        LengthsTell(|s|, |t|, s + x, t + y);
        if |s| == |t| && s + x == t + y {
          Heads(s, t, x, y);
        }
      case (Bool(f), Bool(g)) =>
        if Encoded(a) + x == Encoded(b) + y {
          Heads(Encoded(a), Encoded(b), x, y);
        }
      case (Fixed(s), Fixed(t)) =>
        if s + x == t + y {
          Heads(s, t, x, y);
        }
      case (IntList(s), IntList(t)) =>
        assert Encoded(a) + x == LittleEndian(|s| % LENGTH, 4) + (Keys(s) + x);
        assert Encoded(b) + y == LittleEndian(|t| % LENGTH, 4) + (Keys(t) + y);
        LengthsTell(|s|, |t|, Keys(s) + x, Keys(t) + y);
        if |s| == |t| {
          ListsTell(s, t, x, y);
        }
    }
  }

  ghost predicate OfKinds(row: Row, kinds: seq<Kind>) {
    |row| == |kinds| && forall i :: 0 <= i < |row| ==> OfKind(row[i], kinds[i])
  }

  /** Composite keys are equal exactly when every column is. */
  lemma {:induction false} KeysTell(a: Row, b: Row, ks: seq<Kind>, ls: seq<Kind>)
    requires OfKinds(a, ks) && OfKinds(b, ls) && AllAlike(ks, ls) && Complete(a) && Complete(b)
    ensures KeyOf(a) == KeyOf(b) <==> AllSame(a, b)
  {
    hide Encoded, OfKind, Same, Alike;
    if a != [] {
      KeysTell(a[1..], b[1..], ks[1..], ls[1..]);
      CellsTell(a[0], b[0], ks[0], ls[0], KeyOf(a[1..]), KeyOf(b[1..]));
      assert forall i :: 0 < i < |a| ==> a[i] == a[1..][i - 1] && b[i] == b[1..][i - 1];
      assert forall i :: 0 <= i < |a| - 1 ==> a[1..][i] == a[i + 1] && b[1..][i] == b[i + 1];
    }
  }

  // ----- the join -----

  /** A batch: its key columns' kinds, where it has them all at a kind that joins, and its rows. */
  datatype Batch = Batch(kinds: Option<seq<Kind>>, rows: seq<Row>)

  /** Every batch's columns match these, and its rows are of its own kinds. */
  ghost predicate Matching(batches: seq<Batch>, kinds: seq<Kind>) {
    forall b :: 0 <= b < |batches| && batches[b].kinds.Some? ==>
      AllAlike(batches[b].kinds.value, kinds)
      && forall r :: 0 <= r < |batches[b].rows| ==> OfKinds(batches[b].rows[r], batches[b].kinds.value)
  }

  predicate Readable(batches: seq<Batch>) {
    forall b :: 0 <= b < |batches| ==> batches[b].kinds.Some?
  }

  /** Some row of the batches has every key column present and the same as this one's. */
  ghost predicate Joined(batches: seq<Batch>, row: Row) {
    exists b, r :: 0 <= b < |batches| && 0 <= r < |batches[b].rows| && Joins(batches[b].rows[r], row)
  }

  /** The nested-loop join's condition. */
  predicate Joins(build: Row, probe: Row) {
    Complete(build) && Complete(probe) && AllSame(build, probe)
  }

  /** The columns of some build row are all present and equal to this row's. */
  ghost predicate HasEqual(batches: seq<Batch>, row: Row) {
    Complete(row) && exists b, r :: 0 <= b < |batches| && 0 <= r < |batches[b].rows| && batches[b].rows[r] == row
  }

  // ----- when the same word is the same value -----

  /** A signed column against an unsigned one of 64 bits: a value of one has the word of another value of the other. */
  predicate Clash(s: IntType, t: IntType) {
    || (s.signed && t == IntType(8, false))
    || (t.signed && s == IntType(8, false))
  }

  predicate Clashes(k: Kind, l: Kind) {
    || (k.IntKind? && l.IntKind? && Clash(k.stored, l.stored))
    || (k.ListKind? && l.ListKind? && Clash(k.element, l.element))
  }

  predicate AnyClashes(ks: seq<Kind>, ls: seq<Kind>) {
    exists i :: 0 <= i < |ks| && i < |ls| && Clashes(ks[i], ls[i])
  }

  /** No build batch has a column that clashes with a probe batch's. */
  ghost predicate NoneClash(build: seq<Batch>, probe: seq<Batch>) {
    forall b, p :: 0 <= b < |build| && 0 <= p < |probe| && build[b].kinds.Some? && probe[p].kinds.Some? ==>
      !AnyClashes(build[b].kinds.value, probe[p].kinds.value)
  }

  ghost predicate WordsAreValues(s: IntType, t: IntType) {
    forall x, y :: s.Holds(x) && t.Holds(y) ==> (StoredKey(x) == StoredKey(y) <==> x == y)
  }

  /** Of two stored types, every value of one has a key of its own in the other, if and only if they do not clash. */
  lemma ClashDecides(s: IntType, t: IntType)
    requires s.Stored() && t.Stored()
    ensures WordsAreValues(s, t) <==> !Clash(s, t)
  {
    hide StoredKey, IntType.Holds;
    if Clash(s, t) {
      var (x, y) := if s.signed then (-1, WORD - 1) else (WORD - 1, -1);
      HoldsEnds(s, t);
      KeyIs(-1);
      KeyIs(WORD - 1);
      assert s.Holds(x) && t.Holds(y) && StoredKey(x) == StoredKey(y) && x != y;
    } else {
      forall x, y | s.Holds(x) && t.Holds(y) ensures StoredKey(x) == StoredKey(y) <==> x == y {
        HoldsIs(s, x);
        HoldsIs(t, y);
        SameKey(x, y);
        NarrowerHolds(s, x);
        NarrowerHolds(t, y);
      }
    }
  }

  /** A signed type holds -1, and the widest unsigned one holds 2^64 - 1. */
  lemma HoldsEnds(s: IntType, t: IntType)
    requires s.Stored() && t.Stored() && Clash(s, t)
    ensures if s.signed then s.Holds(-1) && t.Holds(WORD - 1) else s.Holds(WORD - 1) && t.Holds(-1)
  {
    WidthBounds();
  }

  /** Only the widest unsigned type holds a value from 2^63 on. */
  lemma NarrowerHolds(s: IntType, x: int)
    requires s.Stored() && s.Holds(x)
    ensures s != IntType(8, false) ==> x < HALF
  {
    WidthBounds();
  }

  /** Where kinds do not clash, the same is equal. */
  lemma SameIsEqual(a: Cell, b: Cell, k: Kind, l: Kind)
    requires OfKind(a, k) && OfKind(b, l) && Alike(k, l) && !Clashes(k, l)
    ensures Same(a, b) <==> a == b
  {
    hide StoredKey, IntType.Holds, IntType.Stored;
    match (a, b) {
      case (Int(x), Int(y)) => ClashDecides(k.stored, l.stored);
      case (IntList(x), IntList(y)) =>
        ClashDecides(k.element, l.element);
        if Same(a, b) {
          forall i | 0 <= i < |x| ensures x[i] == y[i] {
            assert StoredKey(x[i]) == StoredKey(y[i]);
          }
        }
      case _ =>
    }
  }

  lemma RowsSame(a: Row, b: Row, ks: seq<Kind>, ls: seq<Kind>)
    requires OfKinds(a, ks) && OfKinds(b, ls) && AllAlike(ks, ls) && !AnyClashes(ks, ls)
    ensures AllSame(a, b) <==> a == b
  {
    hide Same, OfKind, Alike, Clashes;
    forall i | 0 <= i < |a| ensures Same(a[i], b[i]) <==> a[i] == b[i] {
      SameIsEqual(a[i], b[i], ks[i], ls[i]);
    }
  }

  /** Where a column clashes, a row joins one it does not equal. */
  lemma WronglyKept(ks: seq<Kind>, ls: seq<Kind>) returns (build: Row, probe: Row)
    requires AllAlike(ks, ls) && AnyClashes(ks, ls) && KindsStored(ks) && KindsStored(ls)
    ensures OfKinds(build, ks) && OfKinds(probe, ls) && Joins(build, probe) && build != probe
    ensures var batches := [Batch(Some(ks), [build])]; Joined(batches, probe) && !HasEqual(batches, probe)
  {
    hide OfKind, StoredKey, KindStored;
    var at :| 0 <= at < |ks| && Clashes(ks[at], ls[at]);
    var (x, y) := if SignedKind(ks[at]) then (-1, WORD - 1) else (WORD - 1, -1);
    build := seq(|ks|, i requires 0 <= i < |ks| => if i == at then Holding(ks[i], x) else SomeCell(ks[i]));
    probe := seq(|ls|, i requires 0 <= i < |ls| => if i == at then Holding(ls[i], y) else SomeCell(ls[i]));
    forall i | 0 <= i < |ks|
      ensures OfKind(build[i], ks[i]) && OfKind(probe[i], ls[i]) && !build[i].Null? && !probe[i].Null?
              && Same(build[i], probe[i])
    {
      if i == at {
        ClashingCells(ks[i], ls[i], x, y);
      } else {
        SomeCells(ks[i], ls[i]);
      }
    }
    ClashingCells(ks[at], ls[at], x, y);
    assert build[at] != probe[at];
    var batches := [Batch(Some(ks), [build])];
    assert Joins(batches[0].rows[0], probe);
  }

  predicate KindStored(kind: Kind) {
    (kind.IntKind? ==> kind.stored.Stored()) && (kind.ListKind? ==> kind.element.Stored())
  }

  predicate KindsStored(kinds: seq<Kind>) {
    forall i :: 0 <= i < |kinds| ==> KindStored(kinds[i])
  }

  predicate SignedKind(kind: Kind) {
    (kind.IntKind? && kind.stored.signed) || (kind.ListKind? && kind.element.signed)
  }

  /** A column's value of this integer, or of a list of it. */
  function Holding(kind: Kind, value: int): Cell {
    if kind.ListKind? then IntList([value]) else Int(value)
  }

  /** Some value of a kind, the same for kinds that match. */
  function SomeCell(kind: Kind): Cell {
    match kind
    case IntKind(_) => Int(0)
    case TextKind => Text([])
    case BoolKind => Bool(false)
    case FixedKind(width) => Fixed(seq(width, _ => 0))
    case ListKind(_) => IntList([])
  }

  lemma SomeCells(k: Kind, l: Kind)
    requires Alike(k, l) && KindStored(k) && KindStored(l)
    ensures OfKind(SomeCell(k), k) && OfKind(SomeCell(l), l) && SomeCell(k) == SomeCell(l) && !SomeCell(k).Null?
    ensures Same(SomeCell(k), SomeCell(l))
  {
    WidthBounds();
    hide StoredKey, Order.Bound;
  }

  /** Kinds match exactly where a value is of both: a column of integers that one stores and the other reads, or the
      very same kind. */
  lemma MatchExactly(k: Kind, l: Kind)
    ensures Alike(k, l) && KindStored(k) && KindStored(l)
            <==> exists cell: Cell :: !cell.Null? && OfKind(cell, k) && OfKind(cell, l)
  {
    if Alike(k, l) && KindStored(k) && KindStored(l) {
      SomeCells(k, l);
    }
  }

  lemma ClashingCells(k: Kind, l: Kind, x: int, y: int)
    requires Alike(k, l) && Clashes(k, l) && KindStored(k) && KindStored(l)
    requires (x, y) == if SignedKind(k) then (-1, WORD - 1) else (WORD - 1, -1)
    ensures OfKind(Holding(k, x), k) && OfKind(Holding(l, y), l) && Holding(k, x) != Holding(l, y)
    ensures Same(Holding(k, x), Holding(l, y)) && !Holding(k, x).Null? && !Holding(l, y).Null?
  {
    hide StoredKey, IntType.Holds;
    KeyIs(-1);
    KeyIs(WORD - 1);
    if k.IntKind? {
      HoldsEnds(k.stored, l.stored);
    } else {
      HoldsEnds(k.element, l.element);
    }
  }

  /** For columns of given types, joining by words is joining by values whatever the columns hold, if and only if no
      column clashes. */
  lemma JoinsByValue(ks: seq<Kind>, ls: seq<Kind>)
    requires AllAlike(ks, ls) && KindsStored(ks) && KindsStored(ls)
    ensures (forall build: Row, probe: Row ::
               OfKinds(build, ks) && OfKinds(probe, ls) && Complete(build) && Complete(probe) ==>
                 (Joins(build, probe) <==> build == probe))
            <==> !AnyClashes(ks, ls)
  {
    hide OfKind, Same, Alike, Clashes, KindStored;
    if AnyClashes(ks, ls) {
      var build, probe := WronglyKept(ks, ls);
      assert Joins(build, probe) && build != probe;
    } else {
      forall build: Row, probe: Row | OfKinds(build, ks) && OfKinds(probe, ls) && Complete(build) && Complete(probe)
        ensures Joins(build, probe) <==> build == probe
      {
        RowsSame(build, probe, ks, ls);
      }
    }
  }

  // ----- building and probing -----

  /** Writes a row's key, or stops at a null. */
  method WriteKey(row: Row) returns (key: Bytes, complete: bool)
    ensures complete <==> Complete(row)
    ensures complete ==> key == KeyOf(row)
  {
    hide Encoded;
    key := [];
    NoKey();
    for i := 0 to |row|
      invariant forall k :: 0 <= k < i ==> !row[k].Null?
      invariant Complete(row[..i]) && key == KeyOf(row[..i])
    {
      if row[i].Null? {
        return key, false;
      }
      KeyStep(row[..i], row[i], row[..i + 1]);
      key := key + Encoded(row[i]);
    }
    assert row[..|row|] == row;
    return key, true;
  }

  lemma NoKey()
    ensures KeyOf([]) == []
  {
  }

  lemma {:induction false} KeyStep(before: Row, cell: Cell, now: Row)
    requires now == before + [cell] && Complete(before) && !cell.Null?
    ensures Complete(now) && KeyOf(now) == KeyOf(before) + Encoded(cell)
  {
    hide Encoded;
    if before == [] {
      assert now[1..] == [];
    } else {
      assert now[1..] == before[1..] + [cell];
      KeyStep(before[1..], cell, now[1..]);
    }
  }

  ghost predicate KeySet(batches: seq<Batch>, keys: set<Bytes>) {
    forall key :: key in keys <==> HasKey(batches, key)
  }

  ghost predicate HasKey(batches: seq<Batch>, key: Bytes) {
    exists b, r :: 0 <= b < |batches| && 0 <= r < |batches[b].rows| && IsKey(batches[b].rows[r], key)
  }

  predicate IsKey(row: Row, key: Bytes) {
    Complete(row) && KeyOf(row) == key
  }

  /** The keys of one batch's rows. */
  method BatchKeys(rows: seq<Row>) returns (keys: set<Bytes>)
    ensures forall key :: key in keys <==> exists r :: 0 <= r < |rows| && IsKey(rows[r], key)
  {
    hide KeyOf, Complete;
    keys := {};
    for i := 0 to |rows|
      invariant forall key :: key in keys <==> exists r :: 0 <= r < i && IsKey(rows[r], key)
    {
      var key, complete := WriteKey(rows[i]);
      if complete {
        keys := keys + {key};
      }
    }
  }

  /** The build side's keys; nothing where a key column cannot be read. */
  method BuildKeySet(batches: seq<Batch>) returns (keys: Option<set<Bytes>>)
    ensures keys.Some? <==> Readable(batches)
    ensures keys.Some? ==> KeySet(batches, keys.value)
  {
    hide IsKey;
    var all: set<Bytes> := {};
    for b := 0 to |batches|
      invariant forall k :: 0 <= k < b ==> batches[k].kinds.Some?
      invariant forall key :: key in all
                  <==> exists k, r :: 0 <= k < b && 0 <= r < |batches[k].rows| && IsKey(batches[k].rows[r], key)
    {
      if batches[b].kinds.None? {
        return None;
      }
      var own := BatchKeys(batches[b].rows);
      all := all + own;
    }
    return Some(all);
  }

  lemma KeyJoins(batches: seq<Batch>, kinds: seq<Kind>, keys: set<Bytes>, row: Row, own: seq<Kind>)
    requires Matching(batches, kinds) && Readable(batches) && KeySet(batches, keys)
    requires OfKinds(row, own) && AllAlike(own, kinds)
    ensures Complete(row) ==> (KeyOf(row) in keys <==> Joined(batches, row))
    ensures !Complete(row) ==> !Joined(batches, row)
  {
    hide KeyOf, AllSame, Complete, OfKinds;
    if Complete(row) {
      if KeyOf(row) in keys {
        var b, r :| 0 <= b < |batches| && 0 <= r < |batches[b].rows| && IsKey(batches[b].rows[r], KeyOf(row));
        KeysTell(batches[b].rows[r], row, batches[b].kinds.value, own);
        assert Joins(batches[b].rows[r], row);
      }
      if Joined(batches, row) {
        var b, r :| 0 <= b < |batches| && 0 <= r < |batches[b].rows| && Joins(batches[b].rows[r], row);
        KeysTell(batches[b].rows[r], row, batches[b].kinds.value, own);
        assert IsKey(batches[b].rows[r], KeyOf(row));
      }
    }
  }

  ghost predicate MaskOf(build: seq<Batch>, rows: seq<Row>, mask: seq<bool>) {
    |mask| == |rows| && forall r :: 0 <= r < |rows| ==> (mask[r] <==> Joined(build, rows[r]))
  }

  ghost predicate EqualOf(build: seq<Batch>, rows: seq<Row>, mask: seq<bool>) {
    |mask| == |rows| && forall r :: 0 <= r < |rows| ==> (mask[r] <==> HasEqual(build, rows[r]))
  }

  /** Which of one batch's rows have a key in the set. */
  method ProbeBatch(ghost build: seq<Batch>, ghost kinds: seq<Kind>, ghost own: seq<Kind>, keys: set<Bytes>,
                    rows: seq<Row>)
    returns (mask: seq<bool>)
    requires Matching(build, kinds) && Readable(build) && KeySet(build, keys) && AllAlike(own, kinds)
    requires forall r :: 0 <= r < |rows| ==> OfKinds(rows[r], own)
    ensures MaskOf(build, rows, mask)
  {
    hide Matching, KeySet, Joined, OfKinds, KeyOf, Complete, Readable, AllAlike;
    mask := [];
    for r := 0 to |rows|
      invariant |mask| == r && forall k :: 0 <= k < r ==> (mask[k] <==> Joined(build, rows[k]))
    {
      var key, complete := WriteKey(rows[r]);
      KeyJoins(build, kinds, keys, rows[r], own);
      mask := mask + [complete && key in keys];
    }
  }

  function NoRows(batches: seq<Batch>): (masks: seq<seq<bool>>)
    ensures |masks| == |batches|
  {
    seq(|batches|, b requires 0 <= b < |batches| => seq(|batches[b].rows|, _ => false))
  }

  /** No build row has a key. */
  ghost predicate Keyless(batches: seq<Batch>) {
    forall b, r :: 0 <= b < |batches| && 0 <= r < |batches[b].rows| ==> !Complete(batches[b].rows[r])
  }

  /** The hash join keeps the rows the nested-loop join by words keeps, and so, where no two columns' types clash,
      exactly the rows whose key some build row has. It is refused where a key column cannot be read, unless the
      answer is already known: no batch on one side, or no key on the build side. */
  method SemiJoinMasks(build: seq<Batch>, probe: seq<Batch>, ghost kinds: seq<Kind>)
    returns (masks: Option<seq<seq<bool>>>)
    requires Matching(build, kinds) && Matching(probe, kinds)
    ensures masks.None? <==> build != [] && probe != [] && (!Readable(build) || (!Keyless(build) && !Readable(probe)))
    ensures masks.Some? ==>
              && |masks.value| == |probe|
              && forall b :: 0 <= b < |probe| ==> MaskOf(build, probe[b].rows, masks.value[b])
    ensures masks.Some? && NoneClash(build, probe) ==>
              forall b :: 0 <= b < |probe| ==> EqualOf(build, probe[b].rows, masks.value[b])
  {
    hide KeySet, Joined, OfKinds, KeyOf, Complete, Joins;
    if build == [] || probe == [] {
      NothingJoins(build, probe);
      return Some(NoRows(probe));
    }
    var keys := BuildKeySet(build);
    if keys.None? {
      return None;
    }
    KeysOfNone(build, keys.value);
    if keys.value == {} {
      NothingJoins(build, probe);
      return Some(NoRows(probe));
    }
    var all: seq<seq<bool>> := [];
    for b := 0 to |probe|
      invariant |all| == b && forall k :: 0 <= k < b ==> probe[k].kinds.Some? && MaskOf(build, probe[k].rows, all[k])
    {
      if probe[b].kinds.None? {
        return None;
      }
      var mask := ProbeBatch(build, kinds, probe[b].kinds.value, keys.value, probe[b].rows);
      all := all + [mask];
    }
    JoinedIsEqual(build, probe, kinds);
    return Some(all);
  }

  /** Where no columns clash, a probe row is joined exactly when some build row equals it. */
  lemma JoinedIsEqual(build: seq<Batch>, probe: seq<Batch>, kinds: seq<Kind>)
    requires Matching(build, kinds) && Matching(probe, kinds) && Readable(build) && Readable(probe)
    ensures NoneClash(build, probe) ==>
              forall p, q :: 0 <= p < |probe| && 0 <= q < |probe[p].rows| ==>
                (Joined(build, probe[p].rows[q]) <==> HasEqual(build, probe[p].rows[q]))
  {
    hide OfKinds, Complete, AllSame, AnyClashes;
    if NoneClash(build, probe) {
      forall p, q | 0 <= p < |probe| && 0 <= q < |probe[p].rows|
        ensures Joined(build, probe[p].rows[q]) <==> HasEqual(build, probe[p].rows[q])
      {
        var row := probe[p].rows[q];
        forall b, r | 0 <= b < |build| && 0 <= r < |build[b].rows|
          ensures AllSame(build[b].rows[r], row) <==> build[b].rows[r] == row
        {
          AlikeThrough(build[b].kinds.value, kinds, probe[p].kinds.value);
          RowsSame(build[b].rows[r], row, build[b].kinds.value, probe[p].kinds.value);
        }
        if Joined(build, row) {
          var b, r :| 0 <= b < |build| && 0 <= r < |build[b].rows| && Joins(build[b].rows[r], row);
          assert build[b].rows[r] == row;
        }
        if HasEqual(build, row) {
          var b, r :| 0 <= b < |build| && 0 <= r < |build[b].rows| && build[b].rows[r] == row;
          assert Joins(build[b].rows[r], row);
        }
      }
    }
  }

  lemma AlikeThrough(ks: seq<Kind>, kinds: seq<Kind>, ls: seq<Kind>)
    requires AllAlike(ks, kinds) && AllAlike(ls, kinds)
    ensures AllAlike(ks, ls)
  {
    forall i | 0 <= i < |ks| ensures Alike(ks[i], ls[i]) {
      assert Alike(ks[i], kinds[i]) && Alike(ls[i], kinds[i]);
    }
  }

  lemma KeysOfNone(batches: seq<Batch>, keys: set<Bytes>)
    requires KeySet(batches, keys)
    ensures keys == {} <==> Keyless(batches)
  {
    hide KeyOf, Complete;
    if !Keyless(batches) {
      var b, r :| 0 <= b < |batches| && 0 <= r < |batches[b].rows| && Complete(batches[b].rows[r]);
      assert IsKey(batches[b].rows[r], KeyOf(batches[b].rows[r]));
      assert HasKey(batches, KeyOf(batches[b].rows[r]));
    }
    if keys != {} {
      var key :| key in keys;
      assert HasKey(batches, key);
      var b, r :| 0 <= b < |batches| && 0 <= r < |batches[b].rows| && IsKey(batches[b].rows[r], key);
    }
  }

  lemma NothingJoins(build: seq<Batch>, probe: seq<Batch>)
    requires build == [] || probe == [] || Keyless(build)
    ensures forall b :: 0 <= b < |probe| ==> MaskOf(build, probe[b].rows, NoRows(probe)[b])
  {
    hide Complete;
  }
}
