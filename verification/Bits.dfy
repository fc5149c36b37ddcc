/**
 Bit operations on words of any width, bit by bit: what flipping a top bit, filling cleared
 bits and flipping low bits come to as arithmetic.
 */
module Bits {
  import opened Arithmetic

  predicate IsPowerOfTwo(n: nat)
    decreases n
  {
    n == 1 || (n > 1 && n % 2 == 0 && IsPowerOfTwo(n / 2))
  }

  function Xor(a: nat, b: nat): nat {
    if a == 0 then b else if b == 0 then a
    else 2 * Xor(a / 2, b / 2) + if a % 2 == b % 2 then 0 else 1
  }

  function And(a: nat, b: nat): (bits: nat)
    ensures bits <= b
  {
    if a == 0 || b == 0 then 0
    else 2 * And(a / 2, b / 2) + if a % 2 == 1 && b % 2 == 1 then 1 else 0
  }

  function Or(a: nat, b: nat): nat {
    if a == 0 then b else if b == 0 then a
    else 2 * Or(a / 2, b / 2) + if a % 2 == 1 || b % 2 == 1 then 1 else 0
  }

  lemma {:induction false} XorHalves(a: nat, b: nat)
    ensures Xor(a, b) / 2 == Xor(a / 2, b / 2) && (Xor(a, b) % 2 == if a % 2 == b % 2 then 0 else 1)
  {
  }

  lemma {:induction false} OrHalves(a: nat, b: nat)
    ensures Or(a, b) / 2 == Or(a / 2, b / 2) && (Or(a, b) % 2 == if a % 2 == 1 || b % 2 == 1 then 1 else 0)
  {
  }

  /** Flipping the top bit of a word moves it by half the word's range. */
  lemma {:induction false} FlipTop(x: nat, half: nat)
    requires IsPowerOfTwo(half) && x < 2 * half
    ensures Xor(x, half) == if x < half then x + half else x - half
    decreases half
  {
    if half == 1 {
      assert Xor(1, 1) == 2 * Xor(0, 0);
    } else {
      XorHalves(x, half);
      FlipTop(x / 2, half / 2);
    }
  }

  /** Filling in bits where the word has none is adding them. */
  lemma {:induction false} FillLow(high: nat, low: nat, power: nat)
    requires IsPowerOfTwo(power) && low < power
    ensures Or(high * power, low) == high * power + low
    decreases power
  {
    if power == 1 {
      assert low == 0;
    } else {
      var half := power / 2;
      assert high * power == 2 * (high * half);
      OrHalves(high * power, low);
      FillLow(high, low / 2, half);
    }
  }

  /** Flipping bits below a power of two leaves the segment as it was. */
  lemma {:induction false} XorKeepsSegment(x: nat, m: nat, length: nat)
    requires IsPowerOfTwo(length) && m < length
    ensures Xor(x, m) / length == x / length
    decreases length
  {
    if length == 1 {
      assert Xor(x, 0) == x;
    } else {
      hide Xor;
      XorHalves(x, m);
      XorKeepsSegment(x / 2, m / 2, length / 2);
      HalfSegment(x, length / 2);
      HalfSegment(Xor(x, m), length / 2);
    }
  }

  /** Bits flipped below a power of two are flipped within the segment, and only there. */
  lemma {:induction false} XorInSegment(x: nat, m: nat, length: nat)
    requires IsPowerOfTwo(length) && m < length
    ensures Xor(x, m) % length == Xor(x % length, m)
    decreases length
  {
    if length == 1 {
      assert Xor(x, 0) == x && Xor(0, 0) == 0;
    } else {
      hide Xor;
      var half := length / 2;
      XorInSegment(x / 2, m / 2, half);
      HalfRemainder(x, half);
      HalfRemainder(Xor(x, m), half);
      XorHalves(x, m);
      XorHalves(x % length, m);
      SameHalves(Xor(x, m) % length, Xor(x % length, m));
    }
  }

  /** The bits that the mask below a power of two keeps are the remainder. */
  lemma {:induction false} MaskIsRemainder(x: nat, length: nat)
    requires IsPowerOfTwo(length)
    ensures And(x, length - 1) == x % length
    decreases length
  {
    if length > 1 {
      var half := length / 2;
      MaskIsRemainder(x / 2, half);
      HalfRemainder(x, half);
      assert (length - 1) / 2 == half - 1 && (length - 1) % 2 == 1;
    }
  }

  lemma HalfRemainder(x: nat, half: nat)
    requires half > 0
    ensures x % (2 * half) / 2 == x / 2 % half && x % (2 * half) % 2 == x % 2
  {
    var (q, r) := (x / (2 * half), x % (2 * half));
    assert x == q * (2 * half) + r;
    assert q * (2 * half) == 2 * (q * half);
    assert x / 2 == q * half + r / 2;
    Quotient(x / 2, half, q);
  }

  lemma SameHalves(a: nat, b: nat)
    requires a / 2 == b / 2 && a % 2 == b % 2
    ensures a == b
  {
  }

  lemma HalfSegment(x: nat, half: nat)
    requires half > 0
    ensures x / (2 * half) == x / 2 / half
  {
    var (q, r) := (x / (2 * half), x % (2 * half));
    assert x == q * (2 * half) + r;
    assert q * (2 * half) == 2 * (q * half);
    assert x / 2 == q * half + r / 2;
    Quotient(x / 2, half, q);
  }

  lemma {:induction false} XorZero(a: nat, b: nat)
    ensures Xor(a, b) == 0 <==> a == b
  {
    if a != 0 && b != 0 {
      XorZero(a / 2, b / 2);
    }
  }

  lemma {:induction false} XorAssociates(a: nat, b: nat, c: nat)
    ensures Xor(Xor(a, b), c) == Xor(a, Xor(b, c))
    decreases a + b + c
  {
    if a != 0 && b != 0 && c != 0 {
      XorAssociates(a / 2, b / 2, c / 2);
      XorHalves(a, b);
      XorHalves(b, c);
      XorHalves(Xor(a, b), c);
      XorHalves(a, Xor(b, c));
      hide Xor;
      var (x, y) := (Xor(Xor(a, b), c), Xor(a, Xor(b, c)));
      assert x / 2 == y / 2 && x % 2 == y % 2;
    }
  }
}
