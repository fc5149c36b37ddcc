/**
 Integer keys in the forms rows sort by: one word, bytes, or the values as stored. A value's
 word at its stored width is the value with its sign bit flipped, so words order as values
 do; a row's word holds its columns' words, the first highest; its bytes are those words
 big-endian and then its path's.
 */
module RowKeys {
  import opened Wrappers
  import opened Order
  import opened Arithmetic
  import opened Bits
  import opened IntTypes

  /** A value's word: its bits, the sign bit flipped. */
  function WordAt(value: int, stored: IntType): (word: nat)
    ensures word < stored.Modulus()
  {
    SignBit(stored.width);
    FlipSign(Unsigned(value, stored), stored.width);
    if stored.signed then Xor(Unsigned(value, stored), stored.Modulus() / 2) else Unsigned(value, stored)
  }

  /** A word's range is a power of two, and so is its sign bit. */
  lemma {:induction false} SignBit(width: nat)
    ensures IsPowerOfTwo(Bound(width))
    ensures width > 0 ==> IsPowerOfTwo(Bound(width) / 2)
  {
    if width > 0 {
      SignBit(width - 1);
      PowerTimes256(Bound(width - 1));
    }
  }

  lemma PowerTimes256(n: nat)
    requires IsPowerOfTwo(n)
    ensures IsPowerOfTwo(256 * n) && IsPowerOfTwo(256 * n / 2)
  {
    assert 256 * n / 2 == 128 * n;
    assert IsPowerOfTwo(2 * n);
    assert IsPowerOfTwo(4 * n);
    assert IsPowerOfTwo(8 * n);
    assert IsPowerOfTwo(16 * n);
    assert IsPowerOfTwo(32 * n);
    assert IsPowerOfTwo(64 * n);
    assert IsPowerOfTwo(128 * n);
  }

  /** Flipping the sign bit moves a word by half its range. */
  lemma FlipSign(word: nat, width: nat)
    requires word < Bound(width)
    ensures var half := Bound(width) / 2; Xor(word, half) < Bound(width)
    ensures var half := Bound(width) / 2;
            width > 0 ==> Xor(word, half) == if word < half then word + half else word - half
  {
    SignBit(width);
    if width > 0 {
      BoundHalves(width);
      FlipTop(word, Bound(width) / 2);
    } else {
      assert Xor(0, 0) == 0;
    }
  }

  /** The word is how far the value is above its type's least. */
  lemma WordIsOffset(value: int, stored: IntType)
    requires stored.Stored() && stored.Holds(value)
    ensures WordAt(value, stored) == value - stored.From()
  {
    UnsignedIs(value, stored);
    BoundHalves(stored.width);
    FlipSign(Unsigned(value, stored), stored.width);
  }

  /** Words of one type order as the values do. */
  lemma WordsOrder(a: int, b: int, stored: IntType)
    requires stored.Stored() && stored.Holds(a) && stored.Holds(b)
    ensures CompareInts(WordAt(a, stored), WordAt(b, stored)) == CompareInts(a, b)
  {
    WordIsOffset(a, stored);
    WordIsOffset(b, stored);
  }

  // ----- rows of fixed columns -----

  /** One row's fixed values, each of its column's type. */
  ghost predicate HoldsAll(types: seq<IntType>, values: seq<int>) {
    |values| == |types| && forall i :: 0 <= i < |types| ==> types[i].Stored() && types[i].Holds(values[i])
  }

  function TotalWidth(types: seq<IntType>): nat {
    if types == [] then 0 else TotalWidth(types[..|types| - 1]) + types[|types| - 1].width
  }

  /** The row's word: its columns' words, the first highest. */
  function RowWord(types: seq<IntType>, values: seq<int>): nat
    requires |values| == |types|
  {
    if types == [] then 0
    else
      var n := |types| - 1;
      RowWord(types[..n], values[..n]) * types[n].Modulus() + WordAt(values[n], types[n])
  }

  /** The row's bytes: its columns' words big-endian, one after the other. */
  function RowBytes(types: seq<IntType>, values: seq<int>): (bytes: seq<int>)
    requires |values| == |types|
    ensures |bytes| == TotalWidth(types)
  {
    if types == [] then []
    else
      var n := |types| - 1;
      RowBytes(types[..n], values[..n]) + BigEndian(WordAt(values[n], types[n]), types[n].width)
  }

  lemma {:induction false} BoundAdds(a: nat, b: nat)
    ensures Bound(a + b) == Bound(a) * Bound(b)
  {
    if b > 0 {
      BoundAdds(a, b - 1);
      BoundStep(b);
      BoundStep(a + b);
      hide Bound;
      assert a + b - 1 == a + (b - 1);
      Regroup(Bound(a), Bound(b - 1));
    }
  }

  lemma BoundStep(n: nat)
    requires n > 0
    ensures Bound(n) == 256 * Bound(n - 1)
  {
  }

  lemma Regroup(x: nat, y: nat)
    ensures 256 * (x * y) == x * (256 * y)
  {
  }

  lemma DigitBound(w: nat, b: nat, x: nat, m: nat)
    requires w < b && x < m
    ensures w * m + x < b * m
  {
    Apart(w, b, m);
  }

  lemma {:induction false} RowWordBound(types: seq<IntType>, values: seq<int>)
    requires |values| == |types|
    ensures RowWord(types, values) < Bound(TotalWidth(types))
  {
    if types != [] {
      var n := |types| - 1;
      RowWordBound(types[..n], values[..n]);
      BoundAdds(TotalWidth(types[..n]), types[n].width);
      hide Bound, WordAt;
      DigitBound(RowWord(types[..n], values[..n]), Bound(TotalWidth(types[..n])), WordAt(values[n], types[n]),
                 types[n].Modulus());
    }
  }

  /** Two digits at one base compare by the high one, then by the low one. */
  lemma DigitsCompare(a: nat, b: nat, x: nat, y: nat, base: nat)
    requires x < base && y < base
    ensures CompareInts(a * base + x, b * base + y) == CompareInts(a, b).Then(CompareInts(x, y))
  {
    if a < b {
      Apart(a, b, base);
    } else if b < a {
      Apart(b, a, base);
    }
  }

  /** Rows' words order as their values do, column by column. */
  lemma {:induction false} RowWordsOrder(types: seq<IntType>, a: seq<int>, b: seq<int>)
    requires HoldsAll(types, a) && HoldsAll(types, b)
    ensures CompareInts(RowWord(types, a), RowWord(types, b)) == Compare(a, b)
  {
    if types != [] {
      var n := |types| - 1;
      RowWordsOrder(types[..n], a[..n], b[..n]);
      WordsOrder(a[n], b[n], types[n]);
      DigitsCompare(RowWord(types[..n], a[..n]), RowWord(types[..n], b[..n]), WordAt(a[n], types[n]),
                    WordAt(b[n], types[n]), types[n].Modulus());
      LastDecides(a, b);
    }
  }

  lemma LastDecides(a: seq<int>, b: seq<int>)
    requires |a| == |b| > 0
    ensures Compare(a, b) == Compare(a[..|a| - 1], b[..|a| - 1]).Then(CompareInts(a[|a| - 1], b[|a| - 1]))
  {
    hide Compare;
    var n := |a| - 1;
    CompareHeads(a[..n], b[..n], [a[n]], [b[n]]);
    assert a == a[..n] + [a[n]] && b == b[..n] + [b[n]];
    CompareSingles(a[n], b[n]);
  }

  lemma CompareSingles(a: int, b: int)
    ensures Compare([a], [b]) == CompareInts(a, b)
  {
    assert [a][1..] == [] && [b][1..] == [];
  }

  /** Rows' bytes order as their values do. */
  lemma {:induction false} RowBytesOrder(types: seq<IntType>, a: seq<int>, b: seq<int>)
    requires HoldsAll(types, a) && HoldsAll(types, b)
    ensures Compare(RowBytes(types, a), RowBytes(types, b)) == Compare(a, b)
  {
    if types != [] {
      var n := |types| - 1;
      RowBytesOrder(types[..n], a[..n], b[..n]);
      WordsOrder(a[n], b[n], types[n]);
      CompareBigEndian(WordAt(a[n], types[n]), WordAt(b[n], types[n]), types[n].width);
      CompareHeads(RowBytes(types[..n], a[..n]), RowBytes(types[..n], b[..n]),
                   BigEndian(WordAt(a[n], types[n]), types[n].width),
                   BigEndian(WordAt(b[n], types[n]), types[n].width));
      LastDecides(a, b);
    }
  }

  // ----- paths -----

  /** Each element's word. */
  function PathWords(path: seq<int>, stored: IntType): (words: seq<nat>)
    ensures |words| == |path|
  {
    seq(|path|, i requires 0 <= i < |path| => WordAt(path[i], stored))
  }

  ghost predicate PathHolds(path: seq<int>, stored: IntType) {
    stored.Stored() && forall i :: 0 <= i < |path| ==> stored.Holds(path[i])
  }

  lemma {:induction false} PathWordsOrder(a: seq<int>, b: seq<int>, stored: IntType)
    requires PathHolds(a, stored) && PathHolds(b, stored)
    ensures Compare(PathWords(a, stored), PathWords(b, stored)) == Compare(a, b)
  {
    if a != [] && b != [] {
      WordsOrder(a[0], b[0], stored);
      assert PathWords(a, stored)[1..] == PathWords(a[1..], stored)
             && PathWords(b, stored)[1..] == PathWords(b[1..], stored);
      PathWordsOrder(a[1..], b[1..], stored);
    }
  }

  /** Paths of one element type order as bytes the way they do element by element and then by length. */
  lemma PathBytesOrder(a: seq<int>, b: seq<int>, stored: IntType)
    requires PathHolds(a, stored) && PathHolds(b, stored)
    ensures Compare(Bytes(PathWords(a, stored), stored.width), Bytes(PathWords(b, stored), stored.width))
            == Compare(a, b)
  {
    PathWordsOrder(a, b, stored);
    CompareBytes(PathWords(a, stored), PathWords(b, stored), stored.width);
  }

  /** A row's key as bytes. */
  function PackedRow(types: seq<IntType>, values: seq<int>, path: Option<seq<int>>, element: IntType): seq<int>
    requires |values| == |types|
  {
    RowBytes(types, values) + if path.Some? then Bytes(PathWords(path.value, element), element.width) else []
  }

  /** What two rows compare as: their fixed values column by column, then their paths. */
  function CompareRows(a: seq<int>, b: seq<int>, pathA: Option<seq<int>>, pathB: Option<seq<int>>): Ordering {
    Compare(a, b).Then(if pathA.Some? && pathB.Some? then Compare(pathA.value, pathB.value) else Equal)
  }

  /** The bytes compare as the values and paths do. */
  lemma PackedRowsOrder(types: seq<IntType>, a: seq<int>, b: seq<int>, pathA: Option<seq<int>>, pathB: Option<seq<int>>,
                        element: IntType)
    requires HoldsAll(types, a) && HoldsAll(types, b) && (pathA.Some? <==> pathB.Some?)
    requires pathA.Some? ==> PathHolds(pathA.value, element) && PathHolds(pathB.value, element)
    ensures Compare(PackedRow(types, a, pathA, element), PackedRow(types, b, pathB, element))
            == CompareRows(a, b, pathA, pathB)
  {
    hide Compare, RowBytes;
    RowBytesOrder(types, a, b);
    if pathA.Some? {
      PathBytesOrder(pathA.value, pathB.value, element);
      CompareHeads(RowBytes(types, a), RowBytes(types, b),
                   Bytes(PathWords(pathA.value, element), element.width),
                   Bytes(PathWords(pathB.value, element), element.width));
    } else {
      assert RowBytes(types, a) + [] == RowBytes(types, a) && RowBytes(types, b) + [] == RowBytes(types, b);
    }
  }
}
