/**
 The order of a table's rows: by their key columns, then by file order. A source's keys are
 prepared in whichever form fits them, and every form orders rows as comparing them column by
 column does, so the sorted rows are the same one permutation in each.
 */
module RowOrder {
  import opened Wrappers
  import opened Order
  import opened IntTypes

  /** A row: its batch and its place there. */
  type Row = (nat, nat)

  datatype StoredInts = StoredInts(stored: IntType, values: seq<int>) {
    predicate Valid() {
      stored.Stored() && forall i :: 0 <= i < |values| ==> stored.Holds(values[i])
    }
  }

  /** A key column as its batch stores it. Lists of anything but integers, and types that do not sort, are told
      apart by `kind`. */
  datatype Column =
    | Ints(ints: StoredInts)
    | Texts(kind: nat, texts: seq<seq<int>>)
    | Paths(offsets: seq<nat>, elements: StoredInts)
    | Lists(kind: nat)
    | Other(kind: nat)
  {
    predicate Valid(rows: nat) {
      match this
      case Ints(ints) => ints.Valid() && |ints.values| == rows
      case Texts(_, texts) => |texts| == rows
      case Paths(offsets, elements) =>
        elements.Valid() && |offsets| == rows + 1 && offsets[rows] <= |elements.values|
        && forall i, j :: 0 <= i <= j <= rows ==> offsets[i] <= offsets[j]
      case _ => true
    }

    /** The elements of a list's row. */
    function Path(row: nat): seq<int>
      requires Paths? && row + 1 < |offsets| && offsets[row] <= offsets[row + 1] <= |elements.values|
    {
      elements.values[offsets[row]..offsets[row + 1]]
    }
  }

  /** The stored type of a column. */
  datatype Type = IntsOf(IntType) | TextsOf(nat) | PathsOf(IntType) | ListsOf(nat) | OtherOf(nat)

  function TypeOf(column: Column): Type {
    match column
    case Ints(ints) => IntsOf(ints.stored)
    case Texts(kind, _) => TextsOf(kind)
    case Paths(_, elements) => PathsOf(elements.stored)
    case Lists(kind) => ListsOf(kind)
    case Other(kind) => OtherOf(kind)
  }

  /** A batch's rows and its key columns, each where the batch has it. */
  datatype Batch = Batch(rows: nat, columns: seq<Option<Column>>) {
    predicate Valid() {
      forall i :: 0 <= i < |columns| && columns[i].Some? ==> columns[i].value.Valid(rows)
    }
  }

  // ----- the comparator -----

  /** What a row is ordered by in one column; nothing where the column is missing or has no order. */
  datatype Key = IntKey(value: int) | TextKey(text: seq<int>) | PathKey(path: seq<int>) | NoKey

  function KeyOf(column: Option<Column>, rows: nat, row: nat): Key
    requires (column.Some? ==> column.value.Valid(rows)) && row < rows
  {
    match column
    case Some(Ints(ints)) => IntKey(ints.values[row])
    case Some(Texts(_, texts)) => TextKey(texts[row])
    case Some(Paths(offsets, elements)) => PathKey(column.value.Path(row))
    case _ => NoKey
  }

  function CompareKey(a: Key, b: Key): Ordering {
    match (a, b)
    case (IntKey(x), IntKey(y)) => CompareInts(x, y)
    case (TextKey(x), TextKey(y)) => Compare(x, y)
    case (PathKey(x), PathKey(y)) => Compare(x, y)
    case _ => Equal
  }

  /** The first column the rows differ in decides. */
  function CompareKeys(a: seq<Key>, b: seq<Key>): Ordering {
    if a == [] || b == [] then Equal else CompareKey(a[0], b[0]).Then(CompareKeys(a[1..], b[1..]))
  }

  predicate InBatches(batches: seq<Batch>, row: Row) {
    row.0 < |batches| && row.1 < batches[row.0].rows && batches[row.0].Valid()
  }

  function KeysOf(batches: seq<Batch>, row: Row): (keys: seq<Key>)
    requires InBatches(batches, row)
    ensures |keys| == |batches[row.0].columns|
  {
    var batch := batches[row.0];
    seq(|batch.columns|, i requires 0 <= i < |batch.columns| => KeyOf(batch.columns[i], batch.rows, row.1))
  }

  function CompareFile(a: Row, b: Row): Ordering {
    CompareInts(a.0, b.0).Then(CompareInts(a.1, b.1))
  }

  /** Two paths compared element by element, then by length, whatever types store them. */
  method ComparePaths(a: seq<int>, b: seq<int>) returns (order: Ordering)
    ensures order == Compare(a, b)
  {
    var i := 0;
    while i < |a| && i < |b|
      invariant i <= |a| && i <= |b|
      invariant Compare(a, b) == Compare(a[i..], b[i..])
    {
      order := CompareInts(a[i], b[i]);
      if !order.Equal? {
        return;
      }
      assert a[i..][1..] == a[i + 1..] && b[i..][1..] == b[i + 1..];
      i := i + 1;
    }
    return CompareInts(|a|, |b|);
  }

  /** Orders two rows by one column each. */
  method CompareColumn(a: Column, rowsA: nat, rowA: nat, b: Column, rowsB: nat, rowB: nat) returns (order: Ordering)
    requires a.Valid(rowsA) && rowA < rowsA && b.Valid(rowsB) && rowB < rowsB
    ensures order == CompareKey(KeyOf(Some(a), rowsA, rowA), KeyOf(Some(b), rowsB, rowB))
  {
    match (a, b) {
      case (Ints(x), Ints(y)) => order := CompareInts(x.values[rowA], y.values[rowB]);
      case (Texts(_, x), Texts(_, y)) => order := Compare(x[rowA], y[rowB]);
      case (Paths(_, _), Paths(_, _)) => order := ComparePaths(a.Path(rowA), b.Path(rowB));
      case _ => order := Equal;
    }
  }

  /** Orders two rows column by column, leaving out the columns either side lacks. */
  method CompareByColumns(batches: seq<Batch>, a: Row, others: seq<Batch>, b: Row) returns (order: Ordering)
    requires InBatches(batches, a) && InBatches(others, b)
    ensures order == CompareKeys(KeysOf(batches, a), KeysOf(others, b))
  {
    hide Compare;
    var (x, y) := (batches[a.0], others[b.0]);
    ghost var (keysA, keysB) := (KeysOf(batches, a), KeysOf(others, b));
    var i := 0;
    while i < |x.columns| && i < |y.columns|
      invariant i <= |x.columns| && i <= |y.columns|
      invariant CompareKeys(keysA, keysB) == CompareKeys(keysA[i..], keysB[i..])
    {
      assert keysA[i..][1..] == keysA[i + 1..] && keysB[i..][1..] == keysB[i + 1..];
      assert CompareKeys(keysA[i..], keysB[i..])
             == CompareKey(keysA[i], keysB[i]).Then(CompareKeys(keysA[i + 1..], keysB[i + 1..]));
      if x.columns[i].Some? && y.columns[i].Some? {
        order := CompareColumn(x.columns[i].value, x.rows, a.1, y.columns[i].value, y.rows, b.1);
        if !order.Equal? {
          return;
        }
      }
      i := i + 1;
    }
    return Equal;
  }

  // ----- the comparator is an order where every batch has the same columns -----

  ghost predicate SameShape(a: seq<Key>, b: seq<Key>) {
    && |a| == |b|
    && forall i :: 0 <= i < |a| ==>
         (a[i].IntKey? <==> b[i].IntKey?) && (a[i].TextKey? <==> b[i].TextKey?) && (a[i].PathKey? <==> b[i].PathKey?)
  }

  lemma {:induction false} KeysReversed(a: seq<Key>, b: seq<Key>)
    ensures CompareKeys(b, a) == CompareKeys(a, b).Reverse()
  {
    if a != [] && b != [] {
      KeysReversed(a[1..], b[1..]);
      KeyReversed(a[0], b[0]);
    }
  }

  lemma KeyReversed(a: Key, b: Key)
    ensures CompareKey(b, a) == CompareKey(a, b).Reverse()
  {
    hide Compare;
    match (a, b) {
      case (TextKey(x), TextKey(y)) => CompareReversed(x, y);
      case (PathKey(x), PathKey(y)) => CompareReversed(x, y);
      case _ =>
    }
  }

  lemma {:induction false} KeysTransitive(a: seq<Key>, b: seq<Key>, c: seq<Key>)
    requires SameShape(a, b) && SameShape(b, c)
    requires !CompareKeys(a, b).Greater? && !CompareKeys(b, c).Greater?
    ensures !CompareKeys(a, c).Greater?
    ensures CompareKeys(a, b).Less? || CompareKeys(b, c).Less? ==> CompareKeys(a, c).Less?
  {
    if a != [] {
      hide Compare, CompareKey;
      assert CompareKeys(a, b) == CompareKey(a[0], b[0]).Then(CompareKeys(a[1..], b[1..]));
      assert CompareKeys(b, c) == CompareKey(b[0], c[0]).Then(CompareKeys(b[1..], c[1..]));
      assert CompareKeys(a, c) == CompareKey(a[0], c[0]).Then(CompareKeys(a[1..], c[1..]));
      KeyTransitive(a[0], b[0], c[0]);
      if CompareKey(a[0], b[0]).Equal? && CompareKey(b[0], c[0]).Equal? {
        KeysTransitive(a[1..], b[1..], c[1..]);
      }
    }
  }

  lemma KeyTransitive(a: Key, b: Key, c: Key)
    requires SameShape([a], [b]) && SameShape([b], [c])
    requires !CompareKey(a, b).Greater? && !CompareKey(b, c).Greater?
    ensures CompareKey(a, c)
            == if CompareKey(a, b).Less? || CompareKey(b, c).Less? then Less else Equal
  {
    hide Compare;
    assert [a][0] == a && [b][0] == b && [c][0] == c;
    match (a, b, c) {
      case (TextKey(x), TextKey(y), TextKey(z)) => SeqsTransitive(x, y, z);
      case (PathKey(x), PathKey(y), PathKey(z)) => SeqsTransitive(x, y, z);
      case _ =>
    }
  }

  lemma SeqsTransitive(a: seq<int>, b: seq<int>, c: seq<int>)
    requires !Compare(a, b).Greater? && !Compare(b, c).Greater?
    ensures Compare(a, c) == if Compare(a, b).Less? || Compare(b, c).Less? then Less else Equal
  {
    CompareTransitive(a, b, c);
    hide Compare;
    CompareEqual(a, b);
    CompareEqual(b, c);
    CompareEqual(a, c);
  }

  /** Every row has keys of the same shape: each key column is in every batch, of one kind. */
  ghost predicate Uniform(batches: seq<Batch>, rows: seq<Row>) {
    && (forall x :: x in rows ==> InBatches(batches, x))
    && forall x, y :: x in rows && y in rows ==> SameShape(KeysOf(batches, x), KeysOf(batches, y))
  }

  /** The order of rows: by key, then by file order. */
  function RowLeq(batches: seq<Batch>): (Row, Row) -> bool {
    (a, b) => InBatches(batches, a) && InBatches(batches, b)
              && !CompareKeys(KeysOf(batches, a), KeysOf(batches, b)).Then(CompareFile(a, b)).Greater?
  }

  lemma RowsOrdered(batches: seq<Batch>, rows: seq<Row>)
    requires Uniform(batches, rows)
    ensures Orders(RowLeq(batches), rows)
    ensures forall x, y :: x in rows && y in rows && RowLeq(batches)(x, y) && RowLeq(batches)(y, x) ==> x == y
  {
    hide CompareKeys, KeysOf, SameShape;
    var leq := RowLeq(batches);
    forall x, y | x in rows && y in rows
      ensures leq(x, y) || leq(y, x)
      ensures leq(x, y) && leq(y, x) ==> x == y
    {
      KeysReversed(KeysOf(batches, x), KeysOf(batches, y));
    }
    forall x, y, z | x in rows && y in rows && z in rows && leq(x, y) && leq(y, z) ensures leq(x, z) {
      KeysTransitive(KeysOf(batches, x), KeysOf(batches, y), KeysOf(batches, z));
    }
  }
}
