/** Integers at the eight types a column can store them at, and the words they are read as. */
module IntTypes {
  import opened Arithmetic
  import opened Order

  const WORD := 0x1_0000_0000_0000_0000
  const HALF := 0x8000_0000_0000_0000

  /** An integer type: its width in bytes and whether it is signed. */
  datatype IntType = IntType(width: nat, signed: bool) {
    predicate Stored() {
      width == 1 || width == 2 || width == 4 || width == 8
    }

    function Modulus(): (modulus: nat)
      ensures modulus > 0
    {
      Bound(width)
    }

    /** The least and the first past the greatest value. */
    function From(): int {
      if signed then -(Modulus() / 2) else 0
    }

    function To(): int {
      if signed then Modulus() / 2 else Modulus()
    }

    predicate Holds(value: int) {
      From() <= value < To()
    }
  }

  lemma WidthBounds()
    ensures Bound(1) == 0x100 && Bound(2) == 0x1_0000 && Bound(4) == 0x1_0000_0000 && Bound(8) == WORD
  {
    assert Bound(1) == 256 * Bound(0);
    assert Bound(2) == 256 * Bound(1);
    assert Bound(3) == 256 * Bound(2);
    assert Bound(4) == 256 * Bound(3);
    assert Bound(5) == 256 * Bound(4);
    assert Bound(6) == 256 * Bound(5);
    assert Bound(7) == 256 * Bound(6);
    assert Bound(8) == 256 * Bound(7);
  }

  lemma BoundHalves(width: nat)
    requires width > 0
    ensures Bound(width) == 2 * (Bound(width) / 2)
  {
  }

  /** The ranges of the types, written out. */
  lemma HoldsIs(stored: IntType, value: int)
    requires stored.Stored() && stored.Holds(value)
    ensures -HALF <= value < WORD
    ensures !stored.signed ==> value >= 0
    ensures stored.signed ==> -(stored.Modulus() / 2) <= value < stored.Modulus() / 2
    ensures stored.signed ==> value < HALF
  {
    WidthBounds();
  }

  /** A value's bits read unsigned at its stored width: what it is as a block number. */
  function Unsigned(value: int, stored: IntType): nat {
    value % stored.Modulus()
  }

  lemma UnsignedIs(value: int, stored: IntType)
    requires stored.Stored() && stored.Holds(value)
    ensures Unsigned(value, stored) == if value < 0 then value + stored.Modulus() else value
    ensures Unsigned(value, stored) < stored.Modulus() <= WORD
  {
    WidthBounds();
    BoundHalves(stored.width);
    hide Bound;
    Wraps(value, stored.Modulus());
  }

  // ----- casts -----

  /** A number cast to an unsigned word. */
  function AsWord(n: int): nat {
    n % WORD
  }

  /** A number cast to a signed word. */
  function AsSigned(n: int): int {
    var word := n % WORD;
    if word >= HALF then word - WORD else word
  }

  /** The key of a stored integer: its value sign-extended to a word. */
  function StoredKey(value: int): (key: nat)
    ensures key < WORD
  {
    AsWord(AsSigned(value))
  }

  lemma KeyIs(value: int)
    requires -HALF <= value < WORD
    ensures StoredKey(value) == if value < 0 then value + WORD else value
  {
  }

  /** Values have one key exactly when they are equal, or one is negative and the other as far above 2^63. */
  lemma SameKey(x: int, y: int)
    requires -HALF <= x < WORD && -HALF <= y < WORD
    ensures StoredKey(x) == StoredKey(y) <==> x == y || (x < 0 && y == x + WORD) || (y < 0 && x == y + WORD)
  {
    hide StoredKey;
    KeyIs(x);
    KeyIs(y);
  }
}
