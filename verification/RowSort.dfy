/** A source's rows sorted by its prepared keys, or by comparing columns where no form fits them. */
module RowSort {
  import opened Wrappers
  import opened Words
  import opened Order
  import opened RowKeys
  import opened IntTypes
  import opened RowOrder
  import opened KeyForms

  // ----- which form the keys take -----

  predicate AllPresent(columns: seq<Option<Column>>) {
    forall i :: 0 <= i < |columns| ==> columns[i].Some?
  }

  function Present(columns: seq<Option<Column>>): (present: seq<Column>)
    requires AllPresent(columns)
    ensures |present| == |columns|
  {
    seq(|columns|, i requires 0 <= i < |columns| => columns[i].value)
  }

  function TypesOf(columns: seq<Column>): (types: seq<Type>)
    ensures |types| == |columns|
  {
    seq(|columns|, i requires 0 <= i < |columns| => TypeOf(columns[i]))
  }

  predicate IsList(column: Column) {
    column.Paths? || column.Lists?
  }

  /** The columns before a trailing list. */
  function Leading(columns: seq<Column>): (leading: seq<Column>) {
    if columns != [] && IsList(columns[|columns| - 1]) then columns[..|columns| - 1] else columns
  }

  /** Typed keys, where the columns are integers with at most a trailing path of integers. */
  function TypedOf(columns: seq<Column>): Option<TypedKeys> {
    if columns == [] then None
    else
      var last := columns[|columns| - 1];
      var leading := Leading(columns);
      if exists i :: 0 <= i < |leading| && !leading[i].Ints? then None
      else
        var fixed := seq(|leading|, i requires 0 <= i < |leading| => leading[i].ints);
        if !IsList(last) then Some(TypedKeys(fixed, None))
        else if last.Paths? then Some(TypedKeys(fixed, Some(last)))
        else None
  }

  /** The typed keys are the columns: the integers in their order, and the path last. */
  lemma TypedOfMeans(columns: seq<Column>)
    requires TypedOf(columns).Some?
    ensures var keys := TypedOf(columns).value;
            && |columns| == |keys.fixed| + (if keys.path.Some? then 1 else 0) && columns != []
            && (forall i :: 0 <= i < |keys.fixed| ==> columns[i] == Ints(keys.fixed[i]))
            && (keys.path.Some? ==> keys.path.value.Paths? && columns[|keys.fixed|] == keys.path.value)
  {
    var (keys, leading) := (TypedOf(columns).value, Leading(columns));
    forall i | 0 <= i < |keys.fixed| ensures columns[i] == Ints(keys.fixed[i]) {
      assert leading[i].Ints? && leading[i] == columns[i];
    }
  }

  /** Every batch has every key column, at the first batch's types, and they are integers with at most a trailing
      path. */
  predicate Prepares(batches: seq<Batch>, width: nat) {
    && batches != [] && width > 0
    && (forall i :: 0 <= i < |batches| ==> AllPresent(batches[i].columns))
    && (forall i :: 0 <= i < |batches| ==> TypesOf(Present(batches[i].columns)) == TypesOf(Present(batches[0].columns)))
    && TypedOf(Present(batches[0].columns)).Some?
  }

  predicate ValidBatches(batches: seq<Batch>, width: nat) {
    forall i :: 0 <= i < |batches| ==> batches[i].Valid() && |batches[i].columns| == width
  }

  /** Columns of the same types make keys of the same types. */
  lemma SameTypesSameKeys(a: seq<Column>, b: seq<Column>)
    requires TypesOf(a) == TypesOf(b)
    ensures TypedOf(a).Some? <==> TypedOf(b).Some?
    ensures TypedOf(a).Some? ==>
              && TypedOf(a).value.Types() == TypedOf(b).value.Types()
              && (TypedOf(a).value.path.Some? <==> TypedOf(b).value.path.Some?)
              && (TypedOf(a).value.path.Some? ==>
                    TypedOf(a).value.path.value.Paths? && TypedOf(b).value.path.value.Paths?
                    && TypedOf(a).value.Element() == TypedOf(b).value.Element())
  {
    forall i | 0 <= i < |a| ensures TypeOf(a[i]) == TypeOf(b[i]) {
      assert TypesOf(a)[i] == TypesOf(b)[i];
    }
    var (x, y) := (Leading(a), Leading(b));
    forall i | 0 <= i < |x| ensures x[i].Ints? <==> y[i].Ints? {
      assert TypeOf(a[i]) == TypeOf(b[i]);
    }
    if TypedOf(a).Some? {
      TypedOfMeans(a);
      TypedOfMeans(b);
      var (p, q) := (TypedOf(a).value, TypedOf(b).value);
      forall i | 0 <= i < |p.fixed| ensures p.Types()[i] == q.Types()[i] {
        assert TypeOf(a[i]) == TypeOf(b[i]);
      }
    }
  }

  /** A batch's typed keys. */
  function TypedIn(batches: seq<Batch>, i: nat): TypedKeys
    requires i < |batches| && AllPresent(batches[i].columns) && TypedOf(Present(batches[i].columns)).Some?
  {
    TypedOf(Present(batches[i].columns)).value
  }

  lemma Prepared(batches: seq<Batch>, width: nat, i: nat)
    requires Prepares(batches, width) && ValidBatches(batches, width) && i < |batches|
    ensures AllPresent(batches[i].columns) && TypedOf(Present(batches[i].columns)).Some?
    ensures TypedIn(batches, i).Valid(batches[i].rows)
    ensures TypedIn(batches, i).Types() == TypedIn(batches, 0).Types()
    ensures TypedIn(batches, i).path.Some? <==> TypedIn(batches, 0).path.Some?
    ensures TypedIn(batches, i).path.Some? ==>
              TypedIn(batches, i).path.value.Paths? && TypedIn(batches, 0).path.value.Paths?
    ensures TypedIn(batches, i).Element() == TypedIn(batches, 0).Element()
  {
    hide StoredInts.Valid;
    var columns := Present(batches[i].columns);
    SameTypesSameKeys(columns, Present(batches[0].columns));
    TypedOfMeans(columns);
    forall k | 0 <= k < |columns| ensures columns[k].Valid(batches[i].rows) {
      assert batches[i].columns[k].Some?;
    }
  }

  /** A column that every batch has, at the first batch's type: integers, or, of the last, a path of them too. */
  predicate Fits(batches: seq<Batch>, width: nat, i: nat, c: nat)
    requires i < |batches| && c < width == |batches[i].columns| == |batches[0].columns|
  {
    var (first, column) := (batches[0].columns[c], batches[i].columns[c]);
    && first.Some? && column.Some? && TypeOf(column.value) == TypeOf(first.value)
    && (column.value.Ints? || (c == width - 1 && column.value.Paths?))
  }

  predicate AllFit(batches: seq<Batch>, width: nat)
    requires ValidBatches(batches, width)
  {
    forall i: nat, c: nat :: i < |batches| && c < width ==> Fits(batches, width, i, c)
  }

  /** Keys are prepared exactly where there is a batch and a key, and every column of every batch fits. */
  lemma PreparesExactly(batches: seq<Batch>, width: nat)
    requires ValidBatches(batches, width)
    ensures Prepares(batches, width) <==> batches != [] && width > 0 && AllFit(batches, width)
  {
    if Prepares(batches, width) {
      TypedOfMeans(Present(batches[0].columns));
      forall i: nat, c: nat | i < |batches| && c < width ensures Fits(batches, width, i, c) {
        assert TypesOf(Present(batches[i].columns))[c] == TypesOf(Present(batches[0].columns))[c];
        assert Present(batches[0].columns)[c] == batches[0].columns[c].value;
      }
    }
    if batches != [] && width > 0 && AllFit(batches, width) {
      forall i | 0 <= i < |batches|
        ensures AllPresent(batches[i].columns) && AllPresent(batches[0].columns)
                && TypesOf(Present(batches[i].columns)) == TypesOf(Present(batches[0].columns))
      {
        forall c: nat | c < width
          ensures batches[i].columns[c].Some? && batches[0].columns[c].Some?
                  && TypeOf(batches[i].columns[c].value) == TypeOf(batches[0].columns[c].value)
        {
          assert Fits(batches, width, i, c);
        }
      }
      var columns := Present(batches[0].columns);
      forall c | 0 <= c < width ensures columns[c].Ints? || (c == width - 1 && columns[c].Paths?) {
        assert Fits(batches, width, 0, c);
      }
    }
  }

  // ----- the prepared keys -----

  datatype SortKeys =
    | WordForm(words: seq<seq<Word>>)
    | TypedForm(typed: seq<TypedKeys>)
    | PackedForm(packed: seq<PackedKeys>)

  /** The keys are the batches', in their form. */
  predicate Made(keys: SortKeys, batches: seq<Batch>, width: nat) {
    && Prepares(batches, width) && ValidBatches(batches, width)
    && match keys
       case WordForm(words) => |words| == |batches|
                               && forall i: nat :: i < |batches| ==> MadeWords(words[i], batches, width, i)
       case TypedForm(typed) => |typed| == |batches|
                                && forall i: nat :: i < |batches| ==> MadeTyped(typed[i], batches, i)
       case PackedForm(packed) => |packed| == |batches|
                                  && forall i: nat :: i < |batches| ==>
                                       MadePacked(packed[i], batches, width, i)
  }

  predicate MadeTyped(typed: TypedKeys, batches: seq<Batch>, i: nat)
    requires i < |batches|
  {
    AllPresent(batches[i].columns) && TypedOf(Present(batches[i].columns)) == Some(typed)
  }

  predicate MadeWords(words: seq<Word>, batches: seq<Batch>, width: nat, i: nat)
    requires Prepares(batches, width) && ValidBatches(batches, width) && i < |batches|
  {
    Prepared(batches, width, i);
    var (keys, rows) := (TypedIn(batches, i), batches[i].rows);
    && keys.path.None? && |words| == rows
    && forall row :: 0 <= row < rows ==> words[row] == RowWord(keys.Types(), keys.Values(rows, row))
  }

  predicate MadePacked(packed: PackedKeys, batches: seq<Batch>, width: nat, i: nat)
    requires Prepares(batches, width) && ValidBatches(batches, width) && i < |batches|
  {
    Prepared(batches, width, i);
    var (keys, rows) := (TypedIn(batches, i), batches[i].rows);
    packed.Valid(rows) && forall row :: 0 <= row < rows ==> packed.Key(row) == PackedOf(keys, rows, row)
  }

  /** Two rows' typed values, column by column and then by path. */
  method CompareTyped(a: TypedKeys, ghost rowsA: nat, rowA: nat, b: TypedKeys, ghost rowsB: nat, rowB: nat)
    returns (order: Ordering)
    requires a.Valid(rowsA) && rowA < rowsA && b.Valid(rowsB) && rowB < rowsB && |a.fixed| == |b.fixed|
    ensures order
            == CompareRows(a.Values(rowsA, rowA), b.Values(rowsB, rowB), a.PathAt(rowsA, rowA), b.PathAt(rowsB, rowB))
  {
    hide IntType.Holds;
    ghost var (x, y) := (a.Values(rowsA, rowA), b.Values(rowsB, rowB));
    for i := 0 to |a.fixed|
      invariant Compare(x, y) == Compare(x[i..], y[i..])
    {
      order := CompareInts(a.fixed[i].values[rowA], b.fixed[i].values[rowB]);
      assert x[i..][1..] == x[i + 1..] && y[i..][1..] == y[i + 1..];
      if !order.Equal? {
        return;
      }
    }
    assert x[|x|..] == [] && y[|y|..] == [];
    if a.path.Some? && b.path.Some? {
      order := ComparePaths(a.path.value.Path(rowA), b.path.value.Path(rowB));
    } else {
      order := Equal;
    }
  }

  /** What the prepared keys say of two rows. */
  function CompareMade(keys: SortKeys, batches: seq<Batch>, width: nat, a: Row, b: Row): Ordering
    requires Made(keys, batches, width) && InBatches(batches, a) && InBatches(batches, b)
  {
    match keys
    case WordForm(words) =>
      assert MadeWords(words[a.0], batches, width, a.0) && MadeWords(words[b.0], batches, width, b.0);
      CompareInts(words[a.0][a.1], words[b.0][b.1])
    case TypedForm(typed) =>
      Prepared(batches, width, a.0);
      Prepared(batches, width, b.0);
      assert MadeTyped(typed[a.0], batches, a.0) && MadeTyped(typed[b.0], batches, b.0);
      var (x, y) := (typed[a.0], typed[b.0]);
      var (m, n) := (batches[a.0].rows, batches[b.0].rows);
      CompareRows(x.Values(m, a.1), y.Values(n, b.1), x.PathAt(m, a.1), y.PathAt(n, b.1))
    case PackedForm(packed) =>
      assert MadePacked(packed[a.0], batches, width, a.0) && MadePacked(packed[b.0], batches, width, b.0);
      Compare(packed[a.0].Key(a.1), packed[b.0].Key(b.1))
  }

  // ----- every form compares as the columns do -----

  function IntKeys(values: seq<int>): (keys: seq<Key>)
    ensures |keys| == |values|
  {
    seq(|values|, i requires 0 <= i < |values| => IntKey(values[i]))
  }

  lemma {:induction false} IntKeysCompare(a: seq<int>, b: seq<int>, x: seq<Key>, y: seq<Key>)
    requires |a| == |b|
    ensures CompareKeys(IntKeys(a) + x, IntKeys(b) + y) == Compare(a, b).Then(CompareKeys(x, y))
  {
    var (keysA, keysB) := (IntKeys(a) + x, IntKeys(b) + y);
    if a == [] {
      assert keysA == x && keysB == y;
    } else {
      assert keysA[1..] == IntKeys(a[1..]) + x && keysB[1..] == IntKeys(b[1..]) + y;
      IntKeysCompare(a[1..], b[1..], x, y);
    }
  }

  /** The row's keys are its integers and then its path. */
  lemma RowKeysAre(batches: seq<Batch>, width: nat, row: Row)
    requires Prepares(batches, width) && ValidBatches(batches, width) && InBatches(batches, row)
    ensures AllPresent(batches[row.0].columns) && TypedOf(Present(batches[row.0].columns)).Some?
    ensures TypedIn(batches, row.0).Valid(batches[row.0].rows)
    ensures var (keys, rows) := (TypedIn(batches, row.0), batches[row.0].rows);
            var path := keys.PathAt(rows, row.1);
            KeysOf(batches, row) == IntKeys(keys.Values(rows, row.1)) + if path.Some? then [PathKey(path.value)] else []
  {
    hide StoredInts.Valid;
    Prepared(batches, width, row.0);
    var (keys, rows) := (TypedIn(batches, row.0), batches[row.0].rows);
    var path := keys.PathAt(rows, row.1);
    var columns := Present(batches[row.0].columns);
    TypedOfMeans(columns);
    var expected := IntKeys(keys.Values(rows, row.1)) + if path.Some? then [PathKey(path.value)] else [];
    forall i | 0 <= i < |columns| ensures KeysOf(batches, row)[i] == expected[i] {
      assert batches[row.0].columns[i] == Some(columns[i]);
      assert KeysOf(batches, row)[i] == KeyOf(Some(columns[i]), rows, row.1);
    }
  }

  lemma ColumnsCompare(batches: seq<Batch>, width: nat, a: Row, b: Row)
    requires Prepares(batches, width) && ValidBatches(batches, width) && InBatches(batches, a) && InBatches(batches, b)
    ensures AllPresent(batches[a.0].columns) && TypedOf(Present(batches[a.0].columns)).Some?
    ensures AllPresent(batches[b.0].columns) && TypedOf(Present(batches[b.0].columns)).Some?
    ensures TypedIn(batches, a.0).Valid(batches[a.0].rows) && TypedIn(batches, b.0).Valid(batches[b.0].rows)
    ensures var (x, y, m, n) := (TypedIn(batches, a.0), TypedIn(batches, b.0), batches[a.0].rows, batches[b.0].rows);
            CompareKeys(KeysOf(batches, a), KeysOf(batches, b))
            == CompareRows(x.Values(m, a.1), y.Values(n, b.1), x.PathAt(m, a.1), y.PathAt(n, b.1))
  {
    hide Compare, KeysOf, StoredInts.Valid, TypedOf;
    Prepared(batches, width, a.0);
    Prepared(batches, width, b.0);
    RowKeysAre(batches, width, a);
    RowKeysAre(batches, width, b);
    var (x, y, m, n) := (TypedIn(batches, a.0), TypedIn(batches, b.0), batches[a.0].rows, batches[b.0].rows);
    var (p, q) := (x.PathAt(m, a.1), y.PathAt(n, b.1));
    assert |x.Types()| == |y.Types()|;
    var s: seq<Key> := if p.Some? then [PathKey(p.value)] else [];
    var t: seq<Key> := if q.Some? then [PathKey(q.value)] else [];
    IntKeysCompare(x.Values(m, a.1), y.Values(n, b.1), s, t);
    LastKeys(s, t);
  }

  lemma LastKeys(a: seq<Key>, b: seq<Key>)
    ensures |a| == |b| == 1 ==> CompareKeys(a, b) == CompareKey(a[0], b[0])
    ensures a == [] || b == [] ==> CompareKeys(a, b) == Equal
  {
  }

  /** One word, the typed values and the packed bytes all compare rows as their columns do. */
  lemma FormsAgree(keys: SortKeys, batches: seq<Batch>, width: nat, a: Row, b: Row)
    requires Made(keys, batches, width) && InBatches(batches, a) && InBatches(batches, b)
    ensures CompareMade(keys, batches, width, a, b) == CompareKeys(KeysOf(batches, a), KeysOf(batches, b))
  {
    hide Compare, KeysOf, StoredInts.Valid, TypedOf, RowWord, PackedRow, CompareKeys, Present, TypesOf;
    ColumnsCompare(batches, width, a, b);
    Prepared(batches, width, a.0);
    Prepared(batches, width, b.0);
    var (x, y, m, n) := (TypedIn(batches, a.0), TypedIn(batches, b.0), batches[a.0].rows, batches[b.0].rows);
    KeyHolds(x, m, a.1);
    KeyHolds(y, n, b.1);
    match keys {
      case WordForm(words) =>
        assert MadeWords(words[a.0], batches, width, a.0) && MadeWords(words[b.0], batches, width, b.0);
        RowWordsOrder(x.Types(), x.Values(m, a.1), y.Values(n, b.1));
      case TypedForm(typed) =>
        assert MadeTyped(typed[a.0], batches, a.0) && MadeTyped(typed[b.0], batches, b.0);
      case PackedForm(packed) =>
        assert MadePacked(packed[a.0], batches, width, a.0) && MadePacked(packed[b.0], batches, width, b.0);
        PackedRowsOrder(x.Types(), x.Values(m, a.1), y.Values(n, b.1), x.PathAt(m, a.1), y.PathAt(n, b.1), x.Element());
    }
  }

  // ----- preparing the keys -----

  /** Paths at least this deep on average are compared as bytes. */
  const PACKED_DEPTH := 8

  /** How many elements the paths of the first `n` rows have in all. */
  function Elements(path: Column, rows: nat, n: nat): nat
    requires path.Paths? && path.Valid(rows) && n <= rows
  {
    if n == 0 then 0 else Elements(path, rows, n - 1) + |path.Path(n - 1)|
  }

  predicate DeepIn(keys: TypedKeys, rows: nat)
    requires keys.Valid(rows)
  {
    keys.path.Some? && rows > 0 && Elements(keys.path.value, rows, rows) >= PACKED_DEPTH * rows
  }

  lemma {:induction false} ElementsSpan(path: Column, rows: nat, n: nat)
    requires path.Paths? && path.Valid(rows) && n <= rows
    ensures path.offsets[0] + Elements(path, rows, n) == path.offsets[n]
  {
    if n > 0 {
      ElementsSpan(path, rows, n - 1);
    }
  }

  /** Whether a batch's paths are deep, told by where the first starts and the last ends. */
  method IsDeep(keys: TypedKeys, rows: nat) returns (deep: bool)
    requires keys.Valid(rows)
    ensures deep <==> DeepIn(keys, rows)
  {
    if keys.path.None? {
      return false;
    }
    var offsets := keys.path.value.offsets;
    ElementsSpan(keys.path.value, rows, rows);
    return offsets[rows] - offsets[0] >= PACKED_DEPTH * (if rows > 0 then rows else 1);
  }

  ghost predicate Deep(batches: seq<Batch>, width: nat)
    requires Prepares(batches, width) && ValidBatches(batches, width)
  {
    exists i :: 0 <= i < |batches| && DeepBatch(batches, width, i)
  }

  predicate DeepBatch(batches: seq<Batch>, width: nat, i: nat)
    requires Prepares(batches, width) && ValidBatches(batches, width) && i < |batches|
  {
    Prepared(batches, width, i);
    DeepIn(TypedIn(batches, i), batches[i].rows)
  }

  predicate OneWord(batches: seq<Batch>, width: nat)
    requires Prepares(batches, width) && ValidBatches(batches, width)
  {
    TypedIn(batches, 0).path.None? && TotalWidth(TypedIn(batches, 0).Types()) <= 8
  }

  /** The keys of every batch: words where they fit one, bytes where paths are deep, the stored values otherwise. */
  method RowSortKeys(batches: seq<Batch>, width: nat) returns (keys: Option<SortKeys>)
    requires ValidBatches(batches, width)
    ensures keys.Some? <==> Prepares(batches, width)
    ensures keys.Some? ==> Made(keys.value, batches, width)
    ensures keys.Some? ==> (keys.value.WordForm? <==> OneWord(batches, width))
    ensures keys.Some? ==> (keys.value.PackedForm? <==> !OneWord(batches, width) && Deep(batches, width))
  {
    hide TypedOf, TotalWidth, TypesOf, ValidBatches, Prepares, MadeWords, MadePacked, TypedKeys.Valid, DeepIn, OneWord;
    if !Prepares(batches, width) {
      return None;
    }
    var typed: seq<TypedKeys> := [];
    for i := 0 to |batches|
      invariant |typed| == i && forall k: nat :: k < i ==> MadeTyped(typed[k], batches, k)
    {
      Prepared(batches, width, i);
      typed := typed + [TypedIn(batches, i)];
    }
    var words := AllWords(batches, width, typed);
    if words.Some? {
      return Some(WordForm(words.value));
    }
    var deep := false;
    for i := 0 to |batches|
      invariant deep <==> exists k :: 0 <= k < i && DeepBatch(batches, width, k)
    {
      Prepared(batches, width, i);
      assert MadeTyped(typed[i], batches, i);
      var own := IsDeep(typed[i], batches[i].rows);
      assert own <==> DeepBatch(batches, width, i);
      deep := deep || own;
    }
    if !deep {
      return Some(TypedForm(typed));
    }
    var packed: seq<PackedKeys> := [];
    for i := 0 to |batches|
      invariant |packed| == i && forall k: nat :: k < i ==> MadePacked(packed[k], batches, width, k)
    {
      Prepared(batches, width, i);
      var own := PackKeys(TypedIn(batches, i), batches[i].rows);
      packed := packed + [own];
      assert MadePacked(packed[i], batches, width, i) by {
        PackedIs(batches, width, i, own);
      }
    }
    return Some(PackedForm(packed));
  }

  /** One word a row in every batch, where they fit. */
  method AllWords(batches: seq<Batch>, width: nat, typed: seq<TypedKeys>) returns (words: Option<seq<seq<Word>>>)
    requires Prepares(batches, width) && ValidBatches(batches, width)
    requires |typed| == |batches| && forall k: nat :: k < |typed| ==> MadeTyped(typed[k], batches, k)
    ensures words.Some? <==> OneWord(batches, width)
    ensures words.Some? ==>
              && |words.value| == |batches|
              && forall k: nat :: k < |batches| ==> MadeWords(words.value[k], batches, width, k)
  {
    hide TypedOf, TotalWidth, TypesOf, ValidBatches, MadeWords, TypedKeys.Valid, RowWord;
    var all: seq<seq<Word>> := [];
    for i := 0 to |batches|
      invariant |all| == i && forall k: nat :: k < i ==> MadeWords(all[k], batches, width, k)
      invariant i > 0 ==> OneWord(batches, width)
    {
      Prepared(batches, width, i);
      assert MadeTyped(typed[i], batches, i);
      var own := WordKeys(typed[i], batches[i].rows);
      if own.None? {
        return None;
      }
      WordsAre(batches, width, i, own.value);
      all := all + [own.value];
    }
    return Some(all);
  }

  lemma WordsAre(batches: seq<Batch>, width: nat, i: nat, words: seq<Word>)
    requires Prepares(batches, width) && ValidBatches(batches, width) && i < |batches|
    requires AllPresent(batches[i].columns) && TypedOf(Present(batches[i].columns)).Some?
    requires TypedIn(batches, i).Valid(batches[i].rows)
    requires var (keys, rows) := (TypedIn(batches, i), batches[i].rows);
             keys.path.None? && |words| == rows
             && forall row :: 0 <= row < rows ==> words[row] == RowWord(keys.Types(), keys.Values(rows, row))
    ensures MadeWords(words, batches, width, i)
  {
    hide TypedOf, TypesOf, RowWord, TypedKeys.Valid, Prepares, ValidBatches;
  }

  lemma PackedIs(batches: seq<Batch>, width: nat, i: nat, packed: PackedKeys)
    requires Prepares(batches, width) && ValidBatches(batches, width) && i < |batches|
    requires AllPresent(batches[i].columns) && TypedOf(Present(batches[i].columns)).Some?
    requires TypedIn(batches, i).Valid(batches[i].rows)
    requires var (keys, rows) := (TypedIn(batches, i), batches[i].rows);
             packed.Valid(rows) && forall row :: 0 <= row < rows ==> packed.Key(row) == PackedOf(keys, rows, row)
    ensures MadePacked(packed, batches, width, i)
  {
    hide TypedOf, TypesOf, PackedOf, TypedKeys.Valid, Prepares, ValidBatches;
  }

  // ----- the sort -----

  /** The rows compared by their prepared keys, then by file order. */
  function MadeLeq(keys: SortKeys, batches: seq<Batch>, width: nat): (Row, Row) -> bool
    requires Made(keys, batches, width)
  {
    (a, b) => InBatches(batches, a) && InBatches(batches, b)
              && !CompareMade(keys, batches, width, a, b).Then(CompareFile(a, b)).Greater?
  }

  /** Every form orders rows the same. */
  lemma SameOrder(keys: SortKeys, batches: seq<Batch>, width: nat)
    requires Made(keys, batches, width)
    ensures forall a: Row, b: Row :: MadeLeq(keys, batches, width)(a, b) == RowLeq(batches)(a, b)
  {
    hide Made, InBatches, CompareKeys, KeysOf;
    forall a: Row, b: Row ensures MadeLeq(keys, batches, width)(a, b) == RowLeq(batches)(a, b) {
      if InBatches(batches, a) && InBatches(batches, b) {
        FormsAgree(keys, batches, width, a, b);
      }
    }
  }

  /** Prepared keys are of one shape. */
  lemma PreparedUniform(batches: seq<Batch>, width: nat, rows: seq<Row>)
    requires Prepares(batches, width) && ValidBatches(batches, width)
    requires forall x :: x in rows ==> InBatches(batches, x)
    ensures Uniform(batches, rows)
  {
    hide TypedOf, TypesOf, KeysOf, Batch.Valid, StoredInts.Valid, Prepares, ValidBatches;
    forall x, y | x in rows && y in rows ensures SameShape(KeysOf(batches, x), KeysOf(batches, y)) {
      RowKeysAre(batches, width, x);
      RowKeysAre(batches, width, y);
      Prepared(batches, width, x.0);
      Prepared(batches, width, y.0);
      assert |TypedIn(batches, x.0).Types()| == |TypedIn(batches, y.0).Types()|;
    }
  }

  /** Rows without key columns are of one shape. */
  lemma KeylessUniform(batches: seq<Batch>, rows: seq<Row>)
    requires ValidBatches(batches, 0) && forall x :: x in rows ==> InBatches(batches, x)
    ensures Uniform(batches, rows)
  {
  }

  /** Sorts row references in place, by their keys and then by file order. Rows without prepared keys are sorted by a
      comparison, which asks that it orders them: `RowLayers.LayeredExactly` says when it does. */
  method SortRows(rows: array<Row>, batches: seq<Batch>, width: nat, keys: Option<SortKeys>)
    requires ValidBatches(batches, width) && forall x :: x in rows[..] ==> InBatches(batches, x)
    requires if keys.Some? then Made(keys.value, batches, width) else width > 0 ==> Orders(RowLeq(batches), rows[..])
    modifies rows
    ensures Sorted(rows[..], RowLeq(batches)) && multiset(rows[..]) == multiset(old(rows[..]))
  {
    hide *;
    var sorted := SortedRows(rows[..], batches, width, keys);
    SameElements(sorted, rows[..]);
    for i := 0 to |sorted|
      invariant rows[..i] == sorted[..i]
    {
      rows[i] := sorted[i];
    }
    assert rows[..] == sorted;
  }

  method SortedRows(rows: seq<Row>, batches: seq<Batch>, width: nat, keys: Option<SortKeys>) returns (sorted: seq<Row>)
    requires ValidBatches(batches, width) && forall x :: x in rows ==> InBatches(batches, x)
    requires if keys.Some? then Made(keys.value, batches, width) else width > 0 ==> Orders(RowLeq(batches), rows)
    ensures Sorted(sorted, RowLeq(batches)) && multiset(sorted) == multiset(rows)
  {
    hide *;
    if keys.Some? {
      MadePrepares(keys.value, batches, width);
      PreparedUniform(batches, width, rows);
      RowsOrdered(batches, rows);
      SameOrder(keys.value, batches, width);
      SameOrders(MadeLeq(keys.value, batches, width), RowLeq(batches), rows);
      sorted := Sort(rows, MadeLeq(keys.value, batches, width));
      SameSorted(MadeLeq(keys.value, batches, width), RowLeq(batches), sorted);
    } else {
      if width == 0 {
        KeylessUniform(batches, rows);
        RowsOrdered(batches, rows);
      }
      sorted := Sort(rows, RowLeq(batches));
    }
  }

  lemma MadePrepares(keys: SortKeys, batches: seq<Batch>, width: nat)
    requires Made(keys, batches, width)
    ensures Prepares(batches, width) && ValidBatches(batches, width)
  {
  }

  lemma SameOrders(a: (Row, Row) -> bool, b: (Row, Row) -> bool, rows: seq<Row>)
    requires Orders(b, rows) && forall x: Row, y: Row :: a(x, y) == b(x, y)
    ensures Orders(a, rows)
  {
  }

  lemma SameSorted(a: (Row, Row) -> bool, b: (Row, Row) -> bool, rows: seq<Row>)
    requires Sorted(rows, a) && forall x: Row, y: Row :: a(x, y) == b(x, y)
    ensures Sorted(rows, b)
  {
  }

  /** The sorted rows are one permutation, whichever form sorted them. */
  lemma SortedOneWay(batches: seq<Batch>, a: seq<Row>, b: seq<Row>)
    requires forall x :: x in a ==> InBatches(batches, x)
    requires Sorted(a, RowLeq(batches)) && Sorted(b, RowLeq(batches)) && multiset(a) == multiset(b)
    ensures a == b
  {
    hide CompareKeys, KeysOf, InBatches, Sorted;
    forall x, y | x in a && y in a && RowLeq(batches)(x, y) && RowLeq(batches)(y, x) ensures x == y {
      KeysReversed(KeysOf(batches, x), KeysOf(batches, y));
    }
    SortedUnique(a, b, RowLeq(batches));
  }
}
