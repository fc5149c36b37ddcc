/**
 The prepared keys of a source's batches: whichever form they take, two rows compare by them
 as they do column by column.
 */
module KeyForms {
  import opened Wrappers
  import opened Words
  import opened Order
  import opened Arithmetic
  import opened Bits
  import opened IntTypes
  import opened RowKeys
  import opened RowOrder

  /** One batch's keys: its integer columns and, where there is one, its trailing path of integers. */
  datatype TypedKeys = TypedKeys(fixed: seq<StoredInts>, path: Option<Column>) {
    predicate Valid(rows: nat) {
      && (forall i :: 0 <= i < |fixed| ==> fixed[i].Valid() && |fixed[i].values| == rows)
      && (path.Some? ==> path.value.Paths? && path.value.Valid(rows))
      && (fixed != [] || path.Some?)
    }

    function Rows(): nat
      requires path.Some? ==> path.value.Paths? && path.value.offsets != []
    {
      if fixed != [] then |fixed[0].values| else if path.Some? then |path.value.offsets| - 1 else 0
    }

    function Types(): (types: seq<IntType>)
      ensures |types| == |fixed|
    {
      seq(|fixed|, i requires 0 <= i < |fixed| => fixed[i].stored)
    }

    function Values(rows: nat, row: nat): (values: seq<int>)
      requires Valid(rows) && row < rows
      ensures |values| == |fixed|
    {
      seq(|fixed|, i requires 0 <= i < |fixed| => fixed[i].values[row])
    }

    function PathAt(rows: nat, row: nat): (at: Option<seq<int>>)
      requires Valid(rows) && row < rows
      ensures at.Some? <==> path.Some?
    {
      if path.Some? then Some(path.value.Path(row)) else None
    }

    /** The type of the path's elements. */
    function Element(): IntType
      requires path.Some? ==> path.value.Paths?
    {
      if path.Some? then path.value.elements.stored else IntType(1, false)
    }
  }

  lemma KeyHolds(keys: TypedKeys, rows: nat, row: nat)
    requires keys.Valid(rows) && row < rows
    ensures HoldsAll(keys.Types(), keys.Values(rows, row))
    ensures keys.path.Some? ==> PathHolds(keys.PathAt(rows, row).value, keys.Element())
  {
    hide IntType.Holds, IntType.Stored;
    if keys.path.Some? {
      var path := keys.path.value.Path(row);
      assert forall i :: 0 <= i < |path| ==> path[i] in keys.path.value.elements.values;
    }
  }

  // ----- one word a row -----

  /** A shift to the left by whole bytes, which past a word's width leaves nothing. */
  function CheckedShift(word: Word, bytes: nat): Word {
    if bytes >= 8 then 0
    else
      WidthBounds();
      (word * Bound(bytes)) % Bound(8)
  }

  /** Below what the shifted-out bytes hold, a shift is a multiplication. */
  lemma ShiftExact(word: Word, above: nat, bytes: nat)
    requires above + bytes <= 8 && word < Bound(above)
    ensures CheckedShift(word, bytes) == word * Bound(bytes)
    ensures word * Bound(bytes) + Bound(bytes) <= Bound(8)
  {
    WidthBounds();
    BoundAdds(above, bytes);
    BoundGrows(above + bytes, 8);
    BoundZero();
    hide Bound;
    Apart(word, Bound(above), Bound(bytes));
    var product := word * Bound(bytes);
    assert 0 <= product by { NonNegative(word, Bound(bytes)); }
    if bytes < 8 {
      Wraps(product, Bound(8));
    } else {
      assert above == 0 && word == 0;
    }
  }

  lemma NonNegative(a: nat, b: nat)
    ensures a * b >= 0
  {
  }

  lemma BoundZero()
    ensures Bound(0) == 1
  {
  }

  lemma {:induction false} BoundGrows(a: nat, b: nat)
    requires a <= b
    ensures Bound(a) <= Bound(b)
  {
    if a < b {
      BoundGrows(a, b - 1);
    }
  }

  lemma {:induction false} TotalWidthGrows(types: seq<IntType>, i: nat)
    requires i <= |types|
    ensures TotalWidth(types[..i]) <= TotalWidth(types)
    decreases |types| - i
  {
    if i == |types| {
      assert types[..i] == types;
    } else {
      TotalWidthGrows(types, i + 1);
      assert types[..i + 1][..i] == types[..i];
    }
  }

  /** The row's word, each column's shifted in below those before it. */
  method FoldWord(keys: TypedKeys, rows: nat, row: nat) returns (word: Word)
    requires keys.Valid(rows) && row < rows && TotalWidth(keys.Types()) <= 8
    ensures word == RowWord(keys.Types(), keys.Values(rows, row))
  {
    hide Bound, WordAt, TotalWidth, Or, IsPowerOfTwo;
    ghost var (types, values) := (keys.Types(), keys.Values(rows, row));
    word := 0;
    NoWord(types, values);
    for i := 0 to |keys.fixed|
      invariant word == RowWord(types[..i], values[..i])
    {
      var column := keys.fixed[i];
      RowWordStep(types, values, i);
      RowWordBound(types[..i], values[..i]);
      TotalWidthGrows(types, i + 1);
      TotalWidthStep(types, i);
      WidthBounds();
      ShiftExact(word, TotalWidth(types[..i]), column.stored.width);
      SignBit(column.stored.width);
      FillLow(word, WordAt(column.values[row], column.stored), Bound(column.stored.width));
      word := Or(CheckedShift(word, column.stored.width), WordAt(column.values[row], column.stored));
    }
    assert types[..|types|] == types && values[..|values|] == values;
  }

  lemma NoWord(types: seq<IntType>, values: seq<int>)
    requires |types| == |values|
    ensures RowWord(types[..0], values[..0]) == 0
  {
  }

  lemma TotalWidthStep(types: seq<IntType>, i: nat)
    requires i < |types|
    ensures TotalWidth(types[..i + 1]) == TotalWidth(types[..i]) + types[i].width
  {
    assert types[..i + 1][..i] == types[..i];
  }

  lemma RowWordStep(types: seq<IntType>, values: seq<int>, i: nat)
    requires |values| == |types| && i < |types|
    ensures RowWord(types[..i + 1], values[..i + 1])
            == RowWord(types[..i], values[..i]) * types[i].Modulus() + WordAt(values[i], types[i])
  {
    assert types[..i + 1][..i] == types[..i] && values[..i + 1][..i] == values[..i];
  }

  method SumWidths(keys: TypedKeys) returns (bytes: nat)
    ensures bytes == TotalWidth(keys.Types())
  {
    bytes := 0;
    for i := 0 to |keys.fixed|
      invariant bytes == TotalWidth(keys.Types()[..i])
    {
      TotalWidthStep(keys.Types(), i);
      bytes := bytes + keys.fixed[i].stored.width;
    }
    assert keys.Types()[..|keys.fixed|] == keys.Types();
  }

  /** One word a row, where there is no path and one word is wide enough. */
  method WordKeys(keys: TypedKeys, ghost rows: nat) returns (words: Option<seq<Word>>)
    requires keys.Valid(rows)
    ensures words.Some? <==> keys.path.None? && TotalWidth(keys.Types()) <= 8
    ensures words.Some? ==>
              && |words.value| == rows
              && forall row :: 0 <= row < rows ==>
                   words.value[row] == RowWord(keys.Types(), keys.Values(rows, row))
  {
    hide RowWord, TotalWidth, IntType.Holds;
    var width := SumWidths(keys);
    if keys.path.Some? || width * 8 > 64 {
      return None;
    }
    var all: seq<Word> := [];
    var n := keys.Rows();
    for row := 0 to n
      invariant |all| == row
      invariant forall k :: 0 <= k < row ==> all[k] == RowWord(keys.Types(), keys.Values(rows, k))
    {
      var word := FoldWord(keys, n, row);
      all := all + [word];
    }
    return Some(all);
  }

  // ----- bytes -----

  /** Each row's bytes, one row's after the other's. */
  datatype PackedKeys = PackedKeys(ends: seq<nat>, bytes: seq<int>) {
    predicate Valid(rows: nat) {
      |ends| == rows && forall i :: 0 <= i < rows ==> Start(i) <= ends[i] <= |bytes|
    }

    function Start(row: nat): nat
      requires row < |ends|
    {
      if row == 0 then 0 else ends[row - 1]
    }

    function Key(row: nat): seq<int>
      requires row < |ends| && Start(row) <= ends[row] <= |bytes|
    {
      bytes[Start(row)..ends[row]]
    }
  }

  method CopyInto(out: array<int>, at: nat, bytes: seq<int>)
    requires at + |bytes| <= out.Length
    modifies out
    ensures out[..at] == old(out[..at]) && out[at..at + |bytes|] == bytes
            && out[at + |bytes|..] == old(out[at + |bytes|..])
  {
    for i := 0 to |bytes|
      invariant out[..at] == old(out[..at]) && out[at..at + i] == bytes[..i] && out[at + i..] == old(out[at + i..])
    {
      out[at + i] := bytes[i];
      assert out[at..at + i + 1] == out[at..at + i] + [bytes[i]];
      assert out[at + i + 1..] == old(out[at + i + 1..]);
    }
  }

  lemma {:induction false} BytesAppend(words: seq<nat>, word: nat, width: nat)
    ensures Bytes(words + [word], width) == Bytes(words, width) + BigEndian(word, width)
  {
    if words == [] {
      assert [word][1..] == [];
      assert Bytes([word], width) == BigEndian(word, width) + Bytes([], width);
    } else {
      assert (words + [word])[1..] == words[1..] + [word];
      BytesAppend(words[1..], word, width);
    }
  }

  /** Writes elements `from` to `to` as order-preserving bytes. */
  method Pack(ints: StoredInts, from: nat, to: nat, out: array<int>, at: nat)
    requires from <= to <= |ints.values| && at + (to - from) * ints.stored.width <= out.Length
    modifies out
    ensures var bytes := Bytes(PathWords(ints.values[from..to], ints.stored), ints.stored.width);
            at + |bytes| <= out.Length
            && out[..at] == old(out[..at]) && out[at..at + |bytes|] == bytes
               && out[at + |bytes|..] == old(out[at + |bytes|..])
  {
    hide Bytes, BigEndian, WordAt;
    ghost var (words, width) := (PathWords(ints.values[from..to], ints.stored), ints.stored.width);
    var end := at;
    NoBytes(words, width);
    for i := 0 to to - from
      invariant end == at + |Bytes(words[..i], width)| <= out.Length
      invariant out[..at] == old(out[..at]) && out[at..end] == Bytes(words[..i], width) && out[end..] == old(out[end..])
    {
      assert words[..i + 1] == words[..i] + [words[i]];
      BytesAppend(words[..i], words[i], width);
      PartFits(i, to - from, width);
      var chunk := BigEndian(WordAt(ints.values[from + i], ints.stored), ints.stored.width);
      ghost var before := out[..];
      CopyInto(out, end, chunk);
      Written(before, out[..], at, end, end + |chunk|);
      end := end + |chunk|;
    }
    assert words[..to - from] == words;
  }

  lemma NoBytes(words: seq<nat>, width: nat)
    ensures Bytes(words[..0], width) == []
  {
  }

  lemma PartFits(i: nat, n: nat, width: nat)
    requires i < n
    ensures i * width + width <= n * width
  {
    if width > 0 {
      Apart(i, n, width);
    }
  }

  /** A write from `end` on leaves what was written before it. */
  lemma Written(before: seq<int>, now: seq<int>, at: nat, end: nat, next: nat)
    requires at <= end <= next <= |before| == |now| && before[..end] == now[..end] && before[next..] == now[next..]
    ensures now[..at] == before[..at] && now[at..end] == before[at..end]
            && now[at..next] == before[at..end] + now[end..next]
  {
    assert now[..at] == now[..end][..at];
    assert before[..at] == before[..end][..at];
    assert now[at..end] == now[..end][at..];
    assert before[at..end] == before[..end][at..];
  }

  function PackedOf(keys: TypedKeys, rows: nat, row: nat): seq<int>
    requires keys.Valid(rows) && row < rows
  {
    PackedRow(keys.Types(), keys.Values(rows, row), keys.PathAt(rows, row), keys.Element())
  }

  /** How many bytes the first `row` rows take. */
  function PackedEnd(keys: TypedKeys, rows: nat, row: nat): nat
    requires keys.Valid(rows) && row <= rows
  {
    if row == 0 then 0 else PackedEnd(keys, rows, row - 1) + |PackedOf(keys, rows, row - 1)|
  }

  lemma {:induction false} PackedEndGrows(keys: TypedKeys, rows: nat, a: nat, b: nat)
    requires keys.Valid(rows) && a <= b <= rows
    ensures PackedEnd(keys, rows, a) <= PackedEnd(keys, rows, b)
  {
    hide PackedOf;
    if a < b {
      PackedEndGrows(keys, rows, a, b - 1);
    }
  }

  /** Where each row's bytes end. */
  method PackedEnds(keys: TypedKeys, rows: nat) returns (ends: seq<nat>, total: nat)
    requires keys.Valid(rows)
    ensures |ends| == rows && forall row :: 0 <= row < rows ==> ends[row] == PackedEnd(keys, rows, row + 1)
    ensures total == PackedEnd(keys, rows, rows)
  {
    hide RowBytes, Bytes, IntType.Holds;
    var fixedBytes := SumWidths(keys);
    ends, total := [], 0;
    for row := 0 to rows
      invariant |ends| == row && total == PackedEnd(keys, rows, row)
      invariant forall k :: 0 <= k < row ==> ends[k] == PackedEnd(keys, rows, k + 1)
    {
      total := total + fixedBytes;
      if keys.path.Some? {
        var (offsets, elements) := (keys.path.value.offsets, keys.path.value.elements);
        total := total + (offsets[row + 1] - offsets[row]) * elements.stored.width;
      }
      ends := ends + [total];
    }
  }

  /** Writes one row's bytes from `start` on. */
  method PackRow(keys: TypedKeys, rows: nat, row: nat, out: array<int>, start: nat, end: nat)
    requires keys.Valid(rows) && row < rows
    requires start + |PackedOf(keys, rows, row)| == end <= out.Length
    modifies out
    ensures out[..start] == old(out[..start]) && out[start..end] == PackedOf(keys, rows, row)
  {
    hide IntType.Holds, BigEndian, Bytes, RowBytes, WordAt, TotalWidth;
    ghost var (types, values) := (keys.Types(), keys.Values(rows, row));
    var at := start;
    assert types[..|types|] == types && values[..|values|] == values;
    NoRowBytes(types, values);
    for i := 0 to |keys.fixed|
      invariant at == start + |RowBytes(types[..i], values[..i])| <= end
      invariant out[..start] == old(out[..start]) && out[start..at] == RowBytes(types[..i], values[..i])
    {
      var column := keys.fixed[i];
      RowBytesStep(types, values, i);
      RowBytesFit(types, values, i + 1);
      OneBytes(column.values, row, column.stored);
      ghost var before := out[..];
      Pack(column, row, row + 1, out, at);
      ghost var next := at + column.stored.width;
      Written(before, out[..], start, at, next);
      at := at + column.stored.width;
    }
    if keys.path.Some? {
      var (offsets, elements) := (keys.path.value.offsets, keys.path.value.elements);
      ghost var before := out[..];
      Pack(elements, offsets[row], offsets[row + 1], out, at);
      Written(before, out[..], start, at, end);
    }
  }

  lemma NoRowBytes(types: seq<IntType>, values: seq<int>)
    requires |types| == |values|
    ensures RowBytes(types[..0], values[..0]) == []
  {
  }

  lemma RowBytesStep(types: seq<IntType>, values: seq<int>, i: nat)
    requires |values| == |types| && i < |types|
    ensures RowBytes(types[..i + 1], values[..i + 1])
            == RowBytes(types[..i], values[..i]) + BigEndian(WordAt(values[i], types[i]), types[i].width)
  {
    assert types[..i + 1][..i] == types[..i] && values[..i + 1][..i] == values[..i];
  }

  lemma RowBytesFit(types: seq<IntType>, values: seq<int>, i: nat)
    requires |values| == |types| && i <= |types|
    ensures |RowBytes(types[..i], values[..i])| <= |RowBytes(types, values)|
  {
    TotalWidthGrows(types, i);
  }

  /** One value's bytes. */
  lemma OneBytes(values: seq<int>, row: nat, stored: IntType)
    requires row < |values|
    ensures Bytes(PathWords(values[row..row + 1], stored), stored.width)
            == BigEndian(WordAt(values[row], stored), stored.width)
  {
    var words := PathWords(values[row..row + 1], stored);
    assert words == [] + [WordAt(values[row], stored)];
    BytesAppend([], words[0], stored.width);
  }

  /** The bytes of the first `n` rows are where they belong. */
  ghost predicate PackedFirst(keys: TypedKeys, rows: nat, bytes: seq<int>, n: nat)
    requires keys.Valid(rows) && n <= rows
  {
    forall row: nat :: row < n ==> HasPacked(keys, rows, bytes, row)
  }

  ghost predicate HasPacked(keys: TypedKeys, rows: nat, bytes: seq<int>, row: nat)
    requires keys.Valid(rows) && row < rows
  {
    var (from, to) := (PackedEnd(keys, rows, row), PackedEnd(keys, rows, row + 1));
    from <= to <= |bytes| && bytes[from..to] == PackedOf(keys, rows, row)
  }

  lemma PackedStep(keys: TypedKeys, rows: nat, before: seq<int>, now: seq<int>, n: nat)
    requires keys.Valid(rows) && n < rows && PackedFirst(keys, rows, before, n)
    requires var (from, to) := (PackedEnd(keys, rows, n), PackedEnd(keys, rows, n + 1));
             from <= to <= |before| == |now| && now[..from] == before[..from]
             && now[from..to] == PackedOf(keys, rows, n)
    ensures PackedFirst(keys, rows, now, n + 1)
  {
    hide PackedEnd, PackedOf, TypedKeys.Valid;
    var start := PackedEnd(keys, rows, n);
    forall row: nat | row < n + 1 ensures HasPacked(keys, rows, now, row) {
      if row < n {
        assert HasPacked(keys, rows, before, row);
        PackedEndGrows(keys, rows, row + 1, n);
        var (from, to) := (PackedEnd(keys, rows, row), PackedEnd(keys, rows, row + 1));
        SlicedTwice(now, start, from, to);
        SlicedTwice(before, start, from, to);
      }
    }
  }

  lemma SlicedTwice<T>(s: seq<T>, n: nat, from: nat, to: nat)
    requires from <= to <= n <= |s|
    ensures s[..n][from..to] == s[from..to]
  {
  }

  /** Typed keys written out as bytes. */
  method PackKeys(keys: TypedKeys, ghost rows: nat) returns (packed: PackedKeys)
    requires keys.Valid(rows)
    ensures packed.Valid(rows)
    ensures forall row :: 0 <= row < rows ==> packed.Key(row) == PackedOf(keys, rows, row)
  {
    hide StoredInts.Valid, PackedOf, PackedEnd, PackedFirst;
    RowsIs(keys, rows);
    var n := keys.Rows();
    var ends, total := PackedEnds(keys, n);
    var bytes := new int[total];
    var start := 0;
    NothingPacked(keys, rows, bytes[..]);
    for row := 0 to n
      invariant start == PackedEnd(keys, rows, row) <= total
      invariant PackedFirst(keys, rows, bytes[..], row)
    {
      EndStep(keys, rows, row);
      PackedEndGrows(keys, rows, row + 1, rows);
      ghost var before := bytes[..];
      PackRow(keys, n, row, bytes, start, ends[row]);
      PackedStep(keys, rows, before, bytes[..], row);
      start := ends[row];
    }
    packed := PackedKeys(ends, bytes[..]);
    AllPacked(keys, rows, packed);
  }

  lemma NothingPacked(keys: TypedKeys, rows: nat, bytes: seq<int>)
    requires keys.Valid(rows)
    ensures PackedEnd(keys, rows, 0) == 0 && PackedFirst(keys, rows, bytes, 0)
  {
  }

  lemma AllPacked(keys: TypedKeys, rows: nat, packed: PackedKeys)
    requires keys.Valid(rows) && PackedFirst(keys, rows, packed.bytes, rows)
    requires |packed.ends| == rows && forall row :: 0 <= row < rows ==>
                                        packed.ends[row] == PackedEnd(keys, rows, row + 1)
    ensures packed.Valid(rows)
    ensures forall row :: 0 <= row < rows ==> packed.Key(row) == PackedOf(keys, rows, row)
  {
    hide PackedEnd, PackedOf, TypedKeys.Valid;
    NothingPacked(keys, rows, packed.bytes);
    forall row: nat | row < rows
      ensures packed.Start(row) <= packed.ends[row] <= |packed.bytes| && packed.Key(row) == PackedOf(keys, rows, row)
    {
      assert HasPacked(keys, rows, packed.bytes, row);
      assert packed.Start(row) == PackedEnd(keys, rows, row);
    }
  }

  lemma RowsIs(keys: TypedKeys, rows: nat)
    requires keys.Valid(rows)
    ensures keys.Rows() == rows
  {
  }

  lemma EndStep(keys: TypedKeys, rows: nat, row: nat)
    requires keys.Valid(rows) && row < rows
    ensures PackedEnd(keys, rows, row + 1) == PackedEnd(keys, rows, row) + |PackedOf(keys, rows, row)|
  {
  }
}
