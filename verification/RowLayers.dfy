/**
 Which batches the column-by-column comparator can order. Two rows compare by the columns both
 of their batches have, of one kind, and then by file order; so where batches lack columns, rows
 of different batches compare by different columns. That is an order, whatever the columns hold,
 if and only if the batches' columns are layered: two batches share their leading columns and
 none after the first they do not share, and no batch stands in file order between two that
 share a column it does not.
 */
module RowLayers {
  import opened Wrappers
  import opened Order
  import opened IntTypes
  import opened RowOrder

  /** What a column orders rows by; nothing where it is missing or has no order. */
  datatype Shape = IntShape | TextShape | PathShape | NoShape

  function ShapeOf(key: Key): Shape {
    match key
    case IntKey(_) => IntShape
    case TextKey(_) => TextShape
    case PathKey(_) => PathShape
    case NoKey => NoShape
  }

  function ShapesOf(keys: seq<Key>): (shapes: seq<Shape>)
    ensures |shapes| == |keys|
  {
    seq(|keys|, c requires 0 <= c < |keys| => ShapeOf(keys[c]))
  }

  function ColumnShape(column: Option<Column>): Shape {
    match column
    case Some(Ints(_)) => IntShape
    case Some(Texts(_, _)) => TextShape
    case Some(Paths(_, _)) => PathShape
    case _ => NoShape
  }

  /** Two batches' columns compare. */
  predicate Meets(p: Shape, q: Shape) {
    p == q && p != NoShape
  }

  predicate NoneMeet(p: seq<Shape>, q: seq<Shape>) {
    forall c :: 0 <= c < |p| && c < |q| ==> !Meets(p[c], q[c])
  }

  /** Past the first column that differs, no columns compare. */
  predicate Agree(p: seq<Shape>, q: seq<Shape>) {
    p == [] || q == [] || if p[0] == q[0] then Agree(p[1..], q[1..]) else NoneMeet(p[1..], q[1..])
  }

  /** The batch in the middle has every column the outer two compare by. */
  predicate Between(p: seq<Shape>, mid: seq<Shape>, q: seq<Shape>) {
    forall c :: 0 <= c < |p| && c < |mid| && c < |q| && Meets(p[c], q[c]) ==> Meets(p[c], mid[c])
  }

  ghost predicate Layered(shapes: seq<seq<Shape>>) {
    && (forall i, j :: 0 <= i < |shapes| && 0 <= j < |shapes| ==> Agree(shapes[i], shapes[j]))
    && (forall i, j, k :: 0 <= i < j < k < |shapes| ==> Between(shapes[i], shapes[j], shapes[k]))
  }

  /** The batches' columns have these shapes. */
  ghost predicate HasShapes(batches: seq<Batch>, shapes: seq<seq<Shape>>, width: nat) {
    |batches| == |shapes| && forall i :: 0 <= i < |batches| ==> BatchShapes(batches[i], shapes[i], width)
  }

  ghost predicate BatchShapes(batch: Batch, shapes: seq<Shape>, width: nat) {
    && batch.Valid() && |batch.columns| == |shapes| == width
    && forall c :: 0 <= c < width ==> ColumnShape(batch.columns[c]) == shapes[c]
  }

  // ----- layered batches are ordered -----

  predicate Leq(a: seq<Key>, x: Row, b: seq<Key>, y: Row) {
    !CompareKeys(a, b).Then(CompareFile(x, y)).Greater?
  }

  lemma {:induction false} Unmet(a: seq<Key>, b: seq<Key>)
    requires NoneMeet(ShapesOf(a), ShapesOf(b))
    ensures CompareKeys(a, b).Equal?
  {
    if a != [] && b != [] {
      assert ShapesOf(a)[1..] == ShapesOf(a[1..]) && ShapesOf(b)[1..] == ShapesOf(b[1..]);
      assert !Meets(ShapesOf(a)[0], ShapesOf(b)[0]);
      assert forall c :: 0 <= c < |a| - 1 ==> ShapesOf(a[1..])[c] == ShapesOf(a)[c + 1];
      assert forall c :: 0 <= c < |b| - 1 ==> ShapesOf(b[1..])[c] == ShapesOf(b)[c + 1];
      Unmet(a[1..], b[1..]);
    }
  }

  /** What three rows' batches must satisfy, each pair and each one that stands between the others. */
  ghost predicate Fits(p: seq<Shape>, i: nat, q: seq<Shape>, j: nat, r: seq<Shape>, k: nat) {
    && |p| == |q| == |r|
    && Agree(p, q) && Agree(q, r) && Agree(p, r)
    && (i == j ==> p == q) && (j == k ==> q == r) && (i == k ==> p == r)
    && (i < j < k || k < j < i ==> Between(p, q, r))
    && (j < i < k || k < i < j ==> Between(q, p, r))
    && (i < k < j || j < k < i ==> Between(p, r, q))
  }

  /** Where first columns differ, no columns compare. */
  lemma HeadsDiffer(p: seq<Shape>, q: seq<Shape>)
    requires |p| == |q| > 0 && Agree(p, q) && p[0] != q[0]
    ensures NoneMeet(p, q)
  {
    forall c | 0 <= c < |p| ensures !Meets(p[c], q[c]) {
      if c > 0 {
        assert p[1..][c - 1] == p[c] && q[1..][c - 1] == q[c];
      }
    }
  }

  lemma FitsRest(p: seq<Shape>, i: nat, q: seq<Shape>, j: nat, r: seq<Shape>, k: nat)
    requires |p| > 0 && Fits(p, i, q, j, r, k) && p[0] == q[0] == r[0]
    ensures Fits(p[1..], i, q[1..], j, r[1..], k)
  {
    assert forall c :: 0 <= c < |p| - 1 ==> p[1..][c] == p[c + 1] && q[1..][c] == q[c + 1] && r[1..][c] == r[c + 1];
  }

  lemma {:induction false} LeqTransitive(a: seq<Key>, x: Row, b: seq<Key>, y: Row, c: seq<Key>, z: Row)
    requires Fits(ShapesOf(a), x.0, ShapesOf(b), y.0, ShapesOf(c), z.0)
    requires Leq(a, x, b, y) && Leq(b, y, c, z)
    ensures Leq(a, x, c, z)
  {
    var (p, q, r) := (ShapesOf(a), ShapesOf(b), ShapesOf(c));
    if a == [] {
    } else if p[0] == q[0] == r[0] {
      assert p[1..] == ShapesOf(a[1..]) && q[1..] == ShapesOf(b[1..]) && r[1..] == ShapesOf(c[1..]);
      FitsRest(p, x.0, q, y.0, r, z.0);
      HeadsFirst(a, x, b, y);
      HeadsFirst(b, y, c, z);
      HeadsFirst(a, x, c, z);
      hide Leq, Fits, CompareKeys, CompareKey;
      KeyTransitive(a[0], b[0], c[0]);
      if CompareKey(a[0], b[0]).Equal? && CompareKey(b[0], c[0]).Equal? {
        LeqTransitive(a[1..], x, b[1..], y, c[1..], z);
      }
    } else {
      hide CompareKeys;
      ApartTransitive(a, x, b, y, c, z);
    }
  }

  lemma HeadsFirst(a: seq<Key>, x: Row, b: seq<Key>, y: Row)
    requires a != [] && b != []
    ensures Leq(a, x, b, y) <==>
              CompareKey(a[0], b[0]).Less? || (CompareKey(a[0], b[0]).Equal? && Leq(a[1..], x, b[1..], y))
  {
    hide CompareKey, CompareFile;
  }

  /** Where the first columns are not all of one shape, file order decides what the third row is beside. */
  lemma ApartTransitive(a: seq<Key>, x: Row, b: seq<Key>, y: Row, c: seq<Key>, z: Row)
    requires Fits(ShapesOf(a), x.0, ShapesOf(b), y.0, ShapesOf(c), z.0) && a != []
    requires !(ShapesOf(a)[0] == ShapesOf(b)[0] == ShapesOf(c)[0])
    requires Leq(a, x, b, y) && Leq(b, y, c, z)
    ensures Leq(a, x, c, z)
  {
    hide CompareKeys;
    var (p, q, r) := (ShapesOf(a), ShapesOf(b), ShapesOf(c));
    if p[0] != q[0] {
      HeadsDiffer(p, q);
      Unmet(a, b);
    }
    if q[0] != r[0] {
      HeadsDiffer(q, r);
      Unmet(b, c);
    }
    if p[0] != r[0] {
      HeadsDiffer(p, r);
      Unmet(a, c);
    }
    if p[0] == q[0] && (x.0 < z.0 < y.0 || y.0 < z.0 < x.0) {
      Unmet(a, b);
    }
    if q[0] == r[0] && (y.0 < x.0 < z.0 || z.0 < x.0 < y.0) {
      Unmet(b, c);
    }
    if p[0] == r[0] && (x.0 < y.0 < z.0 || z.0 < y.0 < x.0) {
      Unmet(a, c);
    }
  }

  lemma KeysShaped(batches: seq<Batch>, shapes: seq<seq<Shape>>, width: nat, row: Row)
    requires HasShapes(batches, shapes, width) && InBatches(batches, row)
    ensures row.0 < |shapes| && ShapesOf(KeysOf(batches, row)) == shapes[row.0] && |shapes[row.0]| == width
  {
    var batch := batches[row.0];
    assert BatchShapes(batch, shapes[row.0], width);
    forall c | 0 <= c < width ensures ShapeOf(KeysOf(batches, row)[c]) == shapes[row.0][c] {
      assert KeysOf(batches, row)[c] == KeyOf(batch.columns[c], batch.rows, row.1);
    }
  }

  lemma {:induction false} AgreeSame(p: seq<Shape>)
    ensures Agree(p, p)
  {
    if p != [] {
      AgreeSame(p[1..]);
    }
  }

  lemma LayeredFits(shapes: seq<seq<Shape>>, width: nat, i: nat, j: nat, k: nat)
    requires Layered(shapes) && i < |shapes| && j < |shapes| && k < |shapes|
    requires |shapes[i]| == |shapes[j]| == |shapes[k]| == width
    ensures Fits(shapes[i], i, shapes[j], j, shapes[k], k)
  {
    hide Agree;
  }

  /** Rows of layered batches are ordered. */
  lemma LayeredOrders(batches: seq<Batch>, shapes: seq<seq<Shape>>, width: nat, rows: seq<Row>)
    requires HasShapes(batches, shapes, width) && Layered(shapes) && forall x :: x in rows ==> InBatches(batches, x)
    ensures Orders(RowLeq(batches), rows)
  {
    hide HasShapes, Layered, KeysOf, InBatches, CompareKeys, Fits;
    var leq := RowLeq(batches);
    forall x, y | x in rows && y in rows ensures leq(x, y) || leq(y, x) {
      KeysReversed(KeysOf(batches, x), KeysOf(batches, y));
    }
    forall x, y, z | x in rows && y in rows && z in rows && leq(x, y) && leq(y, z) ensures leq(x, z) {
      KeysShaped(batches, shapes, width, x);
      KeysShaped(batches, shapes, width, y);
      KeysShaped(batches, shapes, width, z);
      LayeredFits(shapes, width, x.0, y.0, z.0);
      LeqTransitive(KeysOf(batches, x), x, KeysOf(batches, y), y, KeysOf(batches, z), z);
    }
  }

  // ----- batches that are not layered can hold rows it does not order -----

  /** A column of a shape, holding small numbers. */
  function Filled(shape: Shape, values: seq<int>): Option<Column> {
    match shape
    case IntShape => Some(Ints(StoredInts(IntType(1, false), values)))
    case TextShape => Some(Texts(0, seq(|values|, r requires 0 <= r < |values| => [values[r]])))
    case PathShape => Some(Paths(seq(|values| + 1, r => r), StoredInts(IntType(1, false), values)))
    case NoShape => None
  }

  function KeyAt(shape: Shape, value: int): Key {
    match shape
    case IntShape => IntKey(value)
    case TextShape => TextKey([value])
    case PathShape => PathKey([value])
    case NoShape => NoKey
  }

  type Cells = (nat, nat, nat) -> nat

  /** Two rows in each batch, holding what `cells` says of a batch, a row and a column. */
  function Example(shapes: seq<seq<Shape>>, cells: Cells): (batches: seq<Batch>)
    ensures |batches| == |shapes|
  {
    seq(|shapes|, i requires 0 <= i < |shapes| => ExampleBatch(shapes[i], i, cells))
  }

  function ExampleBatch(shapes: seq<Shape>, i: nat, cells: Cells): Batch {
    Batch(2, seq(|shapes|, c requires 0 <= c < |shapes| => Filled(shapes[c], [cells(i, 0, c), cells(i, 1, c)])))
  }

  ghost predicate Small(cells: Cells) {
    forall i: nat, r: nat, c: nat :: cells(i, r, c) < 256
  }

  lemma FilledIs(shape: Shape, values: seq<int>, row: nat)
    requires |values| == 2 && row < 2 && forall r :: 0 <= r < 2 ==> 0 <= values[r] < 256
    ensures Filled(shape, values).Some? ==> Filled(shape, values).value.Valid(2)
    ensures KeyOf(Filled(shape, values), 2, row) == KeyAt(shape, values[row])
    ensures ColumnShape(Filled(shape, values)) == shape
  {
    WidthBounds();
    if shape.PathShape? {
      var offsets := seq(|values| + 1, r => r);
      assert values[row..row + 1] == [values[row]];
    }
  }

  lemma ExampleIs(shapes: seq<seq<Shape>>, width: nat, cells: Cells)
    requires Small(cells) && forall i :: 0 <= i < |shapes| ==> |shapes[i]| == width
    ensures HasShapes(Example(shapes, cells), shapes, width)
    ensures forall i: nat, r: nat :: i < |shapes| && r < 2 ==> RowIs(shapes, cells, i, r)
  {
    hide Filled;
    var batches := Example(shapes, cells);
    forall i | 0 <= i < |shapes|
      ensures BatchShapes(batches[i], shapes[i], width)
      ensures forall r: nat :: r < 2 ==> RowIs(shapes, cells, i, r)
    {
      forall c | 0 <= c < width
        ensures batches[i].columns[c] == Filled(shapes[i][c], [cells(i, 0, c), cells(i, 1, c)])
        ensures batches[i].columns[c].Some? ==> batches[i].columns[c].value.Valid(2)
        ensures ColumnShape(batches[i].columns[c]) == shapes[i][c]
        ensures forall r: nat :: r < 2 ==> KeyOf(batches[i].columns[c], 2, r) == KeyAt(shapes[i][c], cells(i, r, c))
      {
        FilledIs(shapes[i][c], [cells(i, 0, c), cells(i, 1, c)], 0);
        FilledIs(shapes[i][c], [cells(i, 0, c), cells(i, 1, c)], 1);
      }
    }
  }

  ghost predicate RowIs(shapes: seq<seq<Shape>>, cells: Cells, i: nat, r: nat) {
    && i < |shapes| && InBatches(Example(shapes, cells), (i, r))
    && var keys := KeysOf(Example(shapes, cells), (i, r));
       |keys| == |shapes[i]| && forall c: nat :: c < |keys| ==> keys[c] == KeyAt(shapes[i][c], cells(i, r, c))
  }

  lemma KeysAt(p: Shape, u: int, q: Shape, v: int)
    ensures CompareKey(KeyAt(p, u), KeyAt(q, v)) == if Meets(p, q) then CompareInts(u, v) else Equal
  {
    assert [u][1..] == [] && [v][1..] == [];
    assert Compare([u], [v]) == CompareInts(u, v);
  }

  /** The first columns that do not compare equal decide. */
  lemma {:induction false} FirstDecides(a: seq<Key>, b: seq<Key>, at: nat)
    requires at <= |a| && at <= |b| && forall c :: 0 <= c < at ==> CompareKey(a[c], b[c]).Equal?
    ensures at < |a| && at < |b| && !CompareKey(a[at], b[at]).Equal? ==> CompareKeys(a, b) == CompareKey(a[at], b[at])
    ensures at == |a| || at == |b| ==> CompareKeys(a, b).Equal?
  {
    hide CompareKey;
    if at > 0 {
      FirstDecides(a[1..], b[1..], at - 1);
    }
  }

  /** Rows of an example compare by the first column that compares and differs. */
  lemma ExamplesCompare(shapes: seq<seq<Shape>>, width: nat, cells: Cells, i: nat, r: nat, j: nat, t: nat, at: nat)
    requires RowIs(shapes, cells, i, r) && RowIs(shapes, cells, j, t) && |shapes[i]| == |shapes[j]| == width
             && at <= width
    requires forall c: nat :: c < at && Meets(shapes[i][c], shapes[j][c]) ==> cells(i, r, c) == cells(j, t, c)
    ensures var order := CompareKeys(KeysOf(Example(shapes, cells), (i, r)), KeysOf(Example(shapes, cells), (j, t)));
            && (at == width ==> order == Equal)
            && (at < width && Meets(shapes[i][at], shapes[j][at]) && cells(i, r, at) != cells(j, t, at) ==>
                  order == CompareInts(cells(i, r, at), cells(j, t, at)))
  {
    hide CompareKey, CompareKeys, KeyAt, Example, KeysOf, InBatches, Meets;
    var (a, b) := (KeysOf(Example(shapes, cells), (i, r)), KeysOf(Example(shapes, cells), (j, t)));
    forall c: nat | c < width
      ensures CompareKey(a[c], b[c]) == if Meets(shapes[i][c], shapes[j][c])
                                        then CompareInts(cells(i, r, c), cells(j, t, c)) else Equal
    {
      KeysAt(shapes[i][c], cells(i, r, c), shapes[j][c], cells(j, t, c));
    }
    FirstDecides(a, b, at);
  }

  /** So the first such column decides which comes first, and the file where there is none. */
  lemma ExampleLeq(shapes: seq<seq<Shape>>, width: nat, cells: Cells, i: nat, r: nat, j: nat, t: nat, at: nat)
    requires Small(cells) && (forall n :: 0 <= n < |shapes| ==> |shapes[n]| == width)
    requires i < |shapes| && j < |shapes| && r < 2 && t < 2 && at <= width
    requires forall c: nat :: c < at && Meets(shapes[i][c], shapes[j][c]) ==> cells(i, r, c) == cells(j, t, c)
    requires at < width ==> Meets(shapes[i][at], shapes[j][at]) && cells(i, r, at) != cells(j, t, at)
    ensures HasShapes(Example(shapes, cells), shapes, width)
    ensures InBatches(Example(shapes, cells), (i, r)) && InBatches(Example(shapes, cells), (j, t))
    ensures RowLeq(Example(shapes, cells))((i, r), (j, t))
            <==> if at < width then cells(i, r, at) < cells(j, t, at) else i < j || (i == j && r <= t)
  {
    hide CompareKeys, KeysOf, Example, HasShapes, Meets;
    ExampleIs(shapes, width, cells);
    assert RowIs(shapes, cells, i, r) && RowIs(shapes, cells, j, t);
    ExamplesCompare(shapes, width, cells, i, r, j, t, at);
  }

  /** Two columns: an earlier one that does not compare, and a later one that does. */
  lemma {:induction false} Disagree(p: seq<Shape>, q: seq<Shape>) returns (d: nat, c: nat)
    requires |p| == |q| && !Agree(p, q)
    ensures d < c < |p| && p[d] != q[d] && Meets(p[c], q[c])
  {
    if p[0] == q[0] {
      d, c := Disagree(p[1..], q[1..]);
      d, c := d + 1, c + 1;
    } else {
      var e :| 0 <= e < |p| - 1 && Meets(p[1..][e], q[1..][e]);
      d, c := 0, e + 1;
    }
  }

  /** Rows of two batches that share a column past one only the first has: each before the next, in a circle. */
  lemma CycleOfTwo(shapes: seq<seq<Shape>>, width: nat, s: nat, t: nat, d: nat, c: nat) returns (batches: seq<Batch>)
    requires (forall i :: 0 <= i < |shapes| ==> |shapes[i]| == width) && s < |shapes| && t < |shapes| && s != t
    requires d < c < width && shapes[s][d] != shapes[t][d] && shapes[s][d] != NoShape
             && Meets(shapes[s][c], shapes[t][c])
    ensures HasShapes(batches, shapes, width)
    ensures forall x :: x in [(s, 0), (s, 1), (t, 0)] ==> InBatches(batches, x)
    ensures RowLeq(batches)((s, 1), (t, 0)) && RowLeq(batches)((t, 0), (s, 0)) && !RowLeq(batches)((s, 1), (s, 0))
  {
    hide RowLeq, InBatches, HasShapes, Example, RowIs;
    var cells: Cells := (i: nat, r: nat, column: nat) =>
      if i == s && r == 0 then (if column == c then 2 else 0)
      else if i == s then (if column == d then 1 else 0)
      else if column == c then 1 else 0;
    batches := Example(shapes, cells);
    ExampleIs(shapes, width, cells);
    ExampleLeq(shapes, width, cells, s, 1, t, 0, c);
    ExampleLeq(shapes, width, cells, t, 0, s, 0, c);
    ExampleLeq(shapes, width, cells, s, 1, s, 0, d);
  }

  /** Rows of three batches, the outer two sharing a column the middle one does not: a circle too. */
  lemma CycleOfThree(shapes: seq<seq<Shape>>, width: nat, i: nat, j: nat, k: nat, c: nat) returns (batches: seq<Batch>)
    requires (forall n :: 0 <= n < |shapes| ==> |shapes[n]| == width) && i < j < k < |shapes| && c < width
    requires Meets(shapes[i][c], shapes[k][c]) && !Meets(shapes[i][c], shapes[j][c])
    ensures HasShapes(batches, shapes, width)
    ensures forall x :: x in [(i, 0), (j, 0), (k, 0)] ==> InBatches(batches, x)
    ensures RowLeq(batches)((i, 0), (j, 0)) && RowLeq(batches)((j, 0), (k, 0)) && !RowLeq(batches)((i, 0), (k, 0))
  {
    hide RowLeq, InBatches, HasShapes, Example, RowIs;
    var cells: Cells := (n: nat, r: nat, column: nat) => if n == i && column == c then 1 else 0;
    batches := Example(shapes, cells);
    ExampleIs(shapes, width, cells);
    ExampleLeq(shapes, width, cells, i, 0, j, 0, width);
    ExampleLeq(shapes, width, cells, j, 0, k, 0, width);
    ExampleLeq(shapes, width, cells, i, 0, k, 0, c);
  }

  ghost predicate OrdersAll(shapes: seq<seq<Shape>>, width: nat) {
    forall batches: seq<Batch>, rows: seq<Row> ::
      HasShapes(batches, shapes, width) && (forall x :: x in rows ==> InBatches(batches, x)) ==>
        Orders(RowLeq(batches), rows)
  }

  /** Of batches with these columns: comparing column by column and then by file order is an order of their rows,
      whatever the columns hold, if and only if the batches are layered. */
  lemma LayeredExactly(shapes: seq<seq<Shape>>, width: nat)
    requires forall i :: 0 <= i < |shapes| ==> |shapes[i]| == width
    ensures OrdersAll(shapes, width) <==> Layered(shapes)
  {
    hide HasShapes, Orders, Agree, Between;
    if Layered(shapes) {
      forall batches: seq<Batch>, rows: seq<Row> |
        HasShapes(batches, shapes, width) && (forall x :: x in rows ==> InBatches(batches, x))
        ensures Orders(RowLeq(batches), rows)
      {
        LayeredOrders(batches, shapes, width, rows);
      }
    } else {
      var batches, rows := Unordered(shapes, width);
      assert !Orders(RowLeq(batches), rows);
    }
  }

  lemma Unordered(shapes: seq<seq<Shape>>, width: nat) returns (batches: seq<Batch>, rows: seq<Row>)
    requires (forall i :: 0 <= i < |shapes| ==> |shapes[i]| == width) && !Layered(shapes)
    ensures HasShapes(batches, shapes, width) && (forall x :: x in rows ==> InBatches(batches, x))
    ensures !Orders(RowLeq(batches), rows)
  {
    hide Agree, Between, HasShapes, RowLeq, InBatches, Orders;
    if i, j :| 0 <= i < |shapes| && 0 <= j < |shapes| && !Agree(shapes[i], shapes[j]) {
      batches, rows := UnorderedPair(shapes, width, i, j);
    } else {
      var i, j, k :| 0 <= i < j < k < |shapes| && !Between(shapes[i], shapes[j], shapes[k]);
      batches, rows := UnorderedTriple(shapes, width, i, j, k);
    }
  }

  lemma UnorderedPair(shapes: seq<seq<Shape>>, width: nat, i: nat, j: nat)
    returns (batches: seq<Batch>, rows: seq<Row>)
    requires (forall n :: 0 <= n < |shapes| ==> |shapes[n]| == width)
    requires i < |shapes| && j < |shapes| && !Agree(shapes[i], shapes[j])
    ensures HasShapes(batches, shapes, width) && (forall x :: x in rows ==> InBatches(batches, x))
    ensures !Orders(RowLeq(batches), rows)
  {
    hide Agree, HasShapes, RowLeq, InBatches, Orders;
    AgreeSame(shapes[i]);
    var d, c := Disagree(shapes[i], shapes[j]);
    var (s, t) := if shapes[i][d] != NoShape then (i, j) else (j, i);
    batches := CycleOfTwo(shapes, width, s, t, d, c);
    rows := [(s, 0), (s, 1), (t, 0)];
    NotTransitive(RowLeq(batches), rows, (s, 1), (t, 0), (s, 0));
  }

  lemma UnorderedTriple(shapes: seq<seq<Shape>>, width: nat, i: nat, j: nat, k: nat)
    returns (batches: seq<Batch>, rows: seq<Row>)
    requires (forall n :: 0 <= n < |shapes| ==> |shapes[n]| == width)
    requires i < j < k < |shapes| && !Between(shapes[i], shapes[j], shapes[k])
    ensures HasShapes(batches, shapes, width) && (forall x :: x in rows ==> InBatches(batches, x))
    ensures !Orders(RowLeq(batches), rows)
  {
    hide HasShapes, RowLeq, InBatches, Orders;
    var c :| 0 <= c < width && Meets(shapes[i][c], shapes[k][c]) && !Meets(shapes[i][c], shapes[j][c]);
    batches := CycleOfThree(shapes, width, i, j, k, c);
    rows := [(i, 0), (j, 0), (k, 0)];
    NotTransitive(RowLeq(batches), rows, (i, 0), (j, 0), (k, 0));
  }

  lemma NotTransitive(leq: (Row, Row) -> bool, rows: seq<Row>, x: Row, y: Row, z: Row)
    requires x in rows && y in rows && z in rows && leq(x, y) && leq(y, z) && !leq(x, z)
    ensures !Orders(leq, rows)
  {
  }
}
