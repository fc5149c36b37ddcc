/**
 One integer column read three ways: by equality against keys, by order against a declared
 value, and as a block number. Whatever width and sign it was stored at, the readings agree.
 */
module Integers {
  import opened Wrappers
  import opened Arithmetic
  import opened Order
  import opened IntTypes

  /** 2 to the number of bits a word has above this width. */
  function Above(stored: IntType): (above: nat)
    ensures above > 0
  {
    match stored.width
    case 1 => 0x100_0000_0000_0000
    case 2 => 0x1_0000_0000_0000
    case 4 => 0x1_0000_0000
    case _ => 1
  }

  /** The width's bits shifted up, read signed, and shifted back with the sign. */
  function SignExtend(word: nat, stored: IntType): nat {
    AsWord(AsSigned(word * Above(stored)) / Above(stored))
  }

  function ZeroExtend(word: nat, stored: IntType): nat {
    word % stored.Modulus()
  }

  /** A filter's values at the signedness the catalog declares. */
  datatype IntValues = UnsignedValues(words: seq<int>) | SignedValues(numbers: seq<int>) {
    ghost predicate Valid() {
      match this
      case UnsignedValues(words) => forall i :: 0 <= i < |words| ==> 0 <= words[i] < WORD
      case SignedValues(numbers) => forall i :: 0 <= i < |numbers| ==> -HALF <= numbers[i] < HALF
    }

    function Values(): seq<int> {
      match this
      case UnsignedValues(words) => words
      case SignedValues(numbers) => numbers
    }
  }

  function FitsUnsigned(value: int, stored: IntType): bool {
    stored.width == 8 || value / stored.Modulus() == 0
  }

  function FitsSigned(value: int, stored: IntType): bool {
    stored.width == 8 || -(stored.Modulus() / 2) <= value < stored.Modulus() / 2
  }

  /** The key a filter's value has at the stored width, if it fits it. */
  function KeyAt(value: int, declaredSigned: bool, stored: IntType): Option<nat> {
    if declaredSigned then
      if !FitsSigned(value, stored) then None
      else Some(if stored.signed then AsWord(value) else ZeroExtend(AsWord(value), stored))
    else
      if !FitsUnsigned(value, stored) then None
      else Some(if stored.signed then SignExtend(AsWord(value), stored) else AsWord(value))
  }

  /** The keys of the values that fit, in order. */
  method StoredKeys(values: IntValues, stored: IntType) returns (keys: seq<nat>)
    ensures forall key :: key in keys <==>
              exists i :: 0 <= i < |values.Values()|
                && KeyAt(values.Values()[i], values.SignedValues?, stored) == Some(key)
  {
    var all := values.Values();
    keys := [];
    for i := 0 to |all|
      invariant forall key :: key in keys
                  <==> exists k :: 0 <= k < i && KeyAt(all[k], values.SignedValues?, stored) == Some(key)
    {
      var key := KeyAt(all[i], values.SignedValues?, stored);
      if key.Some? {
        keys := keys + [key.value];
      }
    }
  }

  /** The value the catalog declares a stored integer to be. */
  function DeclaredValue(value: int, stored: IntType, declaredSigned: bool): int {
    var key := StoredKey(value);
    if declaredSigned then AsSigned(SignExtend(key, stored)) else ZeroExtend(key, stored)
  }

  // ----- what the casts come to -----

  lemma Products(stored: IntType)
    requires stored.Stored()
    ensures stored.Modulus() * Above(stored) == WORD && stored.Modulus() % 2 == 0
    ensures stored.Modulus() / 2 * Above(stored) == HALF
  {
  }

  lemma Cancels(x: int, a: int)
    requires a > 0
    ensures x * a / a == x
  {
    Quotient(x * a, a, x);
  }

  lemma Scaled(x: int, y: int, a: int)
    requires a > 0
    ensures x < y <==> x * a < y * a
  {
    if x < y {
      Apart(x, y, a);
    } else if y < x {
      Apart(y, x, a);
    }
  }

  /** Sign extension keeps the low bits and fills the rest with their top one. */
  lemma SignExtendIs(word: nat, stored: IntType)
    requires stored.Stored() && word < WORD
    ensures var low := word % stored.Modulus();
            SignExtend(word, stored) == if low < stored.Modulus() / 2 then low else low + WORD - stored.Modulus()
  {
    hide IntType.Modulus, Above;
    Products(stored);
    var (m, a) := (stored.Modulus(), Above(stored));
    var (high, low) := (word / m, word % m);
    assert word == high * m + low;
    assert word * a == low * a + high * (m * a);
    ModuloAdds(low * a, high, WORD);
    Scaled(low, m, a);
    Scaled(-1, low, a);
    Scaled(low, m / 2, a);
    Quotient(low * a, WORD, 0);
    assert (word * a) % WORD == low * a;
    if low < m / 2 {
      Cancels(low, a);
      assert AsSigned(word * a) == low * a;
    } else {
      Cancels(low - m, a);
      assert (low - m) * a == low * a - m * a;
      assert AsSigned(word * a) == (low - m) * a;
    }
  }

  /** A key's low bits are the value's own. */
  lemma LowIs(value: int, stored: IntType)
    requires stored.Stored() && stored.Holds(value)
    ensures Unsigned(value, stored) < stored.Modulus() && StoredKey(value) % stored.Modulus() == Unsigned(value, stored)
    ensures StoredKey(value) == if value < 0 then value + WORD else value
  {
    hide StoredKey, IntType.Modulus, IntType.Holds;
    HoldsIs(stored, value);
    UnsignedIs(value, stored);
    KeyIs(value);
    KeyLow(value, stored);
  }

  lemma ModulusBelow(stored: IntType)
    requires stored.Stored()
    ensures 2 <= stored.Modulus() <= WORD && stored.Modulus() % 2 == 0
            && (stored.width != 8 ==> stored.Modulus() < HALF)
    ensures stored.width == 8 ==> stored.Modulus() == WORD
  {
  }

  /** The declared reading of a stored value: its own low bits, at the declared sign. */
  lemma DeclaredIs(value: int, stored: IntType, declaredSigned: bool)
    requires stored.Stored() && stored.Holds(value)
    ensures var low := Unsigned(value, stored);
            DeclaredValue(value, stored, declaredSigned)
            == if declaredSigned && low >= stored.Modulus() / 2 then low - stored.Modulus() else low
  {
    hide SignExtend, StoredKey, IntType.Modulus, IntType.Holds, Unsigned;
    ModulusBelow(stored);
    LowIs(value, stored);
    SignExtendIs(StoredKey(value), stored);
  }

  lemma FilterLow(filter: int, declaredSigned: bool, stored: IntType)
    requires stored.Stored()
    requires if declaredSigned then -HALF <= filter < HALF else 0 <= filter < WORD
    ensures AsWord(filter) < WORD
    ensures !declaredSigned ==> (FitsUnsigned(filter, stored) <==> filter < stored.Modulus())
    ensures !declaredSigned && FitsUnsigned(filter, stored) ==>
              AsWord(filter) == filter && AsWord(filter) % stored.Modulus() == filter
    ensures declaredSigned ==>
              (FitsSigned(filter, stored) <==> -(stored.Modulus() / 2) <= filter < stored.Modulus() / 2)
    ensures declaredSigned && FitsSigned(filter, stored) ==>
              && AsWord(filter) == (if filter < 0 then filter + WORD else filter)
              && AsWord(filter) % stored.Modulus() == (if filter < 0 then filter + stored.Modulus() else filter)
  {
    hide IntType.Modulus, Above;
    ModulusBelow(stored);
    Products(stored);
    var (m, times) := (stored.Modulus(), Above(stored));
    Wraps(filter, WORD);
    Wraps(filter, m);
    ModuloAdds(filter, times, m);
    if !declaredSigned {
      assert filter == filter / m * m + filter % m;
      if filter < m {
        Quotient(filter, m, 0);
      }
    }
  }

  /** A filter's value has a stored value's key exactly when the stored value reads as it. */
  lemma KeyMatches(value: int, stored: IntType, filter: int, declaredSigned: bool)
    requires stored.Stored() && stored.Holds(value)
    requires if declaredSigned then -HALF <= filter < HALF else 0 <= filter < WORD
    ensures KeyAt(filter, declaredSigned, stored) == Some(StoredKey(value))
            <==> DeclaredValue(value, stored, declaredSigned) == filter
  {
    hide SignExtend, DeclaredValue, StoredKey, IntType.Modulus, FitsSigned, FitsUnsigned, AsWord, Unsigned;
    ModulusBelow(stored);
    HoldsIs(stored, value);
    UnsignedIs(value, stored);
    LowIs(value, stored);
    DeclaredIs(value, stored, declaredSigned);
    FilterLow(filter, declaredSigned, stored);
    SignExtendIs(AsWord(filter), stored);
  }

  /** Equality by keys is equality of declared values, for every width, stored sign, declared sign and filter. */
  lemma EqualityIsOrder(value: int, stored: IntType, values: IntValues, keys: seq<nat>)
    requires stored.Stored() && stored.Holds(value) && values.Valid()
    requires forall key :: key in keys <==>
               exists i :: 0 <= i < |values.Values()|
                 && KeyAt(values.Values()[i], values.SignedValues?, stored) == Some(key)
    ensures StoredKey(value) in keys <==> DeclaredValue(value, stored, values.SignedValues?) in values.Values()
  {
    hide KeyAt, StoredKey, DeclaredValue;
    var all := values.Values();
    forall i | 0 <= i < |all|
      ensures KeyAt(all[i], values.SignedValues?, stored) == Some(StoredKey(value))
              <==> DeclaredValue(value, stored, values.SignedValues?) == all[i]
    {
      KeyMatches(value, stored, all[i], values.SignedValues?);
    }
  }

  // ----- block numbers -----

  /** A statistic cast to the column's type, and that read unsigned. */
  function BlockNumberAt(stored: IntType, statistic: int): nat {
    statistic % stored.Modulus()
  }

  /** A statistic that states a value, however wide the file keeps statistics and whichever way it widened them, is
      the value's block number. */
  lemma StatisticIsBlock(stored: IntType, value: int, statistic: int, wide: IntType)
    requires stored.Stored() && stored.Holds(value) && wide.Stored() && wide.width >= stored.width
    requires wide.Holds(statistic) && (statistic - value) % wide.Modulus() == 0
    ensures BlockNumberAt(stored, AsSigned(statistic)) == Unsigned(value, stored)
  {
    hide IntType.Modulus, IntType.Holds, AsSigned;
    SameLowBits(stored, value, statistic, wide);
    SignedModulo(statistic, stored);
  }

  /** And its low bits, at the column's own type, are the value itself. */
  lemma StatementIs(stored: IntType, value: int, statistic: int, wide: IntType)
    requires stored.Stored() && stored.Holds(value) && wide.Stored() && wide.width >= stored.width
    requires wide.Holds(statistic) && (statistic - value) % wide.Modulus() == 0
    ensures DeclaredValue(statistic, stored, stored.signed) == value
  {
    hide IntType.Modulus, IntType.Holds, StoredKey, SignExtend, Unsigned;
    ModulusBelow(stored);
    SameLowBits(stored, value, statistic, wide);
    KeyLow(statistic, stored);
    UnsignedIs(value, stored);
    HoldsIs(stored, value);
    SignExtendIs(StoredKey(statistic), stored);
  }

  /** A number widened by whole multiples of the wider range keeps its low bits. */
  lemma SameLowBits(stored: IntType, value: int, statistic: int, wide: IntType)
    requires stored.Stored() && stored.Holds(value) && wide.Stored() && wide.width >= stored.width
    requires wide.Holds(statistic) && (statistic - value) % wide.Modulus() == 0
    ensures -HALF <= statistic < WORD && statistic % stored.Modulus() == Unsigned(value, stored)
  {
    hide IntType.Modulus, IntType.Holds;
    Wider(stored, wide);
    var (m, w) := (stored.Modulus(), wide.Modulus());
    var (k, j) := ((statistic - value) / w, w / m);
    assert statistic == value + k * w;
    assert w == j * m;
    Multiple(value, k, j, m);
    assert statistic == value + k * j * m;
  }

  lemma KeyLow(number: int, stored: IntType)
    requires stored.Stored() && -HALF <= number < WORD
    ensures StoredKey(number) % stored.Modulus() == number % stored.Modulus()
  {
    hide StoredKey, IntType.Modulus, Above;
    KeyIs(number);
    Products(stored);
    ModuloAdds(number, Above(stored), stored.Modulus());
  }

  lemma Wider(stored: IntType, wide: IntType)
    requires stored.Stored() && wide.Stored() && wide.width >= stored.width
    ensures wide.Modulus() % stored.Modulus() == 0
    ensures forall statistic :: wide.Holds(statistic) ==> -HALF <= statistic < WORD
  {
    hide Bound, IntType.Holds;
    WidthBounds();
    forall statistic | wide.Holds(statistic) ensures -HALF <= statistic < WORD {
      HoldsIs(wide, statistic);
    }
  }

  lemma Multiple(value: int, k: int, j: int, m: int)
    requires m > 0
    ensures (value + k * j * m) % m == value % m && k * (j * m) == k * j * m
  {
    ModuloAdds(value, k * j, m);
  }

  lemma SignedModulo(n: int, stored: IntType)
    requires stored.Stored() && -HALF <= n < WORD
    ensures AsSigned(n) % stored.Modulus() == n % stored.Modulus()
  {
    hide IntType.Modulus, Above;
    Products(stored);
    if n >= HALF {
      var times: int := 0 - Above(stored);
      assert AsSigned(n) == n + times * stored.Modulus();
      ModuloAdds(n, times, stored.Modulus());
    } else {
      assert AsSigned(n) == n;
    }
  }

  // ----- ranges -----

  function InRange(value: nat, from: Option<nat>, to: Option<nat>): bool {
    (from.Some? ==> from.value <= value) && (to.Some? ==> value <= to.value)
  }

  /** Rows of an unsigned column within bounds; a bound the width cannot hold is not cut down to it: such a `from`
      matches nothing, and such a `to` constrains nothing. A null row's answer is null, but for the `from` that
      matches nothing, where it is no. */
  method Within(values: seq<Option<nat>>, stored: IntType, from: Option<nat>, to: Option<nat>)
    returns (mask: seq<Option<bool>>)
    requires stored.Stored() && !stored.signed
    requires forall i :: 0 <= i < |values| && values[i].Some? ==> stored.Holds(values[i].value)
    ensures |mask| == |values|
    ensures forall i :: 0 <= i < |values| && values[i].Some? ==> mask[i] == Some(InRange(values[i].value, from, to))
    ensures forall i :: 0 <= i < |values| && values[i].None? ==>
              mask[i] == if from.Some? && from.value >= stored.Modulus() then Some(false) else None
  {
    var low := if from.Some? && from.value > 0 then from else None;
    if low.Some? && low.value >= stored.Modulus() {
      return seq(|values|, _ => Some(false));
    }
    var high := if to.Some? && to.value < stored.Modulus() then to else None;
    mask := [];
    for i := 0 to |values|
      invariant |mask| == i
      invariant forall k :: 0 <= k < i ==>
                  mask[k] == if values[k].Some? then Some(InRange(values[k].value, from, to)) else None
    {
      var answer := if values[i].None? then None else
        Some((low.Some? ==> values[i].value >= low.value) && (high.Some? ==> values[i].value <= high.value));
      mask := mask + [answer];
    }
  }
}
