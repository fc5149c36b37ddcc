/**
 Base58 of a byte string: the digits of its value at base 58, converted in place a byte at a
 time, after a `1` for each leading zero byte. Decoding gives the bytes back, the top digit is
 never zero, and the digits fit the room set aside for them.
 */
module Base58 {
  const DIGITS := "123456789"
  const A_TO_H := "ABCDEFGH"
  const J_TO_N := "JKLMN"
  const P_TO_Z := "PQRSTUVWXYZ"
  const SMALL_A_TO_K := "abcdefghijk"
  const SMALL_M_TO_Z := "mnopqrstuvwxyz"

  /** The Bitcoin alphabet, without `0`, `O`, `I` and `l`. */
  function Alphabet(): (letters: string)
    ensures |letters| == 58
  {
    DIGITS + A_TO_H + J_TO_N + P_TO_Z + SMALL_A_TO_K + SMALL_M_TO_Z
  }

  function Pow(b: nat, n: nat): nat {
    if n == 0 then 1 else b * Pow(b, n - 1)
  }

  /** The value of digits, the lowest first. */
  function Value(digits: seq<nat>): nat {
    if digits == [] then 0 else Value(digits[..|digits| - 1]) + digits[|digits| - 1] * Pow(58, |digits| - 1)
  }

  /** The value of bytes, the highest first. */
  function ValueOf(bytes: seq<nat>): nat {
    if bytes == [] then 0 else ValueOf(bytes[..|bytes| - 1]) * 256 + bytes[|bytes| - 1]
  }

  /** The bytes of a value, the highest first and not zero. */
  function BytesOf(n: nat): (bytes: seq<nat>)
    decreases n
  {
    if n == 0 then [] else BytesOf(n / 256) + [n % 256]
  }

  ghost predicate AreBytes(bytes: seq<nat>) {
    forall i :: 0 <= i < |bytes| ==> bytes[i] < 256
  }

  ghost predicate AreDigits(digits: seq<nat>) {
    forall i :: 0 <= i < |digits| ==> digits[i] < 58
  }

  // ----- the conversion -----

  /** Multiplies the digits by 256 in place and adds a byte; what is left over goes into new digits. The carry from
      digit to digit fits a byte. */
  method AddByte(digits: seq<nat>, byte: nat) returns (more: seq<nat>)
    requires AreDigits(digits) && byte < 256 && (digits != [] ==> digits[|digits| - 1] > 0)
             && (digits == [] ==> byte > 0)
    ensures AreDigits(more) && Value(more) == Value(digits) * 256 + byte
    ensures more != [] && more[|more| - 1] > 0
  {
    hide Value, Pow;
    more := digits;
    var carry: nat := byte;
    NoDigits();
    assert digits[..0] == [];
    assert 0 * Pow(58, 0) == 0;
    for i := 0 to |digits|
      invariant |more| == |digits| && AreDigits(more) && more[i..] == digits[i..] && carry < 256
      invariant Value(more[..i]) + carry * Pow(58, i) == Value(digits[..i]) * 256 + byte
      invariant i == |digits| > 0 ==> carry > 0
    {
      assert more[i] == more[i..][0] == digits[i];
      ghost var before := more;
      var sum := carry + digits[i] * 256;
      CarryFits(digits[i], carry);
      more := more[i := sum % 58];
      assert more[..i] == before[..i];
      ValueStep(more, i);
      ValueStep(digits, i);
      PowStep(i);
      CarryStep(Value(more[..i]), Value(digits[..i]), byte, carry, digits[i], Pow(58, i));
      assert more[i + 1..] == before[i..][1..];
      carry := sum / 58;
    }
    assert more[..|digits|] == more && digits[..|digits|] == digits;
    while carry > 0
      invariant AreDigits(more) && carry < 256
      invariant Value(more) + carry * Pow(58, |more|) == Value(digits) * 256 + byte
      invariant carry == 0 ==> more != [] && more[|more| - 1] > 0
    {
      ghost var (before, was) := (more, carry);
      more := more + [carry % 58];
      assert more[..|before|] == before;
      ValueStep(more, |before|);
      assert more[..|more|] == more;
      PowStep(|before|);
      Carried(was, Pow(58, |before|));
      carry := carry / 58;
    }
    assert carry * Pow(58, |more|) == 0;
  }

  lemma NoDigits()
    ensures Value([]) == 0 && Pow(58, 0) == 1
  {
  }

  lemma PowStep(i: nat)
    ensures Pow(58, i + 1) == 58 * Pow(58, i)
  {
  }

  lemma ValueStep(digits: seq<nat>, i: nat)
    requires i < |digits|
    ensures Value(digits[..i + 1]) == Value(digits[..i]) + digits[i] * Pow(58, i)
  {
    assert digits[..i + 1][..i] == digits[..i];
  }

  lemma CarryFits(digit: nat, carry: nat)
    requires digit < 58 && carry < 256
    ensures (carry + digit * 256) / 58 < 256 && (digit > 0 ==> (carry + digit * 256) / 58 > 0)
  {
  }

  lemma CarryStep(now: nat, was: nat, byte: nat, carry: nat, digit: nat, p: nat)
    requires now + carry * p == was * 256 + byte
    ensures var sum := carry + digit * 256;
            now + sum % 58 * p + sum / 58 * (58 * p) == (was + digit * p) * 256 + byte
  {
    var sum := carry + digit * 256;
    var (q, r) := (sum / 58, sum % 58);
    assert sum == 58 * q + r;
    assert r * p + q * (58 * p) == sum * p;
    assert sum * p == carry * p + digit * 256 * p;
  }

  lemma Carried(carry: nat, p: nat)
    ensures carry % 58 * p + carry / 58 * (58 * p) == carry * p
  {
    var (q, r) := (carry / 58, carry % 58);
    assert carry == 58 * q + r;
  }

  /** The digits of a byte string that does not start with a zero. */
  method Digits(bytes: seq<nat>) returns (digits: seq<nat>)
    requires AreBytes(bytes) && (bytes != [] ==> bytes[0] > 0)
    ensures AreDigits(digits) && Value(digits) == ValueOf(bytes)
    ensures digits == [] <==> bytes == []
    ensures digits != [] ==> digits[|digits| - 1] > 0
  {
    hide Value;
    NoDigits();
    digits := [];
    for i := 0 to |bytes|
      invariant AreDigits(digits) && Value(digits) == ValueOf(bytes[..i])
      invariant digits == [] <==> i == 0
      invariant digits != [] ==> digits[|digits| - 1] > 0
    {
      assert bytes[..i + 1][..i] == bytes[..i];
      digits := AddByte(digits, bytes[i]);
    }
    assert bytes[..|bytes|] == bytes;
  }

  // ----- the room set aside -----

  lemma {:induction false} PowAdds(b: nat, m: nat, n: nat)
    ensures Pow(b, m + n) == Pow(b, m) * Pow(b, n)
  {
    if n > 0 {
      PowAdds(b, m, n - 1);
      Regroup(b, Pow(b, m), Pow(b, n - 1));
    }
  }

  lemma Regroup(b: nat, x: nat, y: nat)
    ensures b * (x * y) == x * (b * y)
  {
  }

  lemma {:induction false} PowPositive(b: nat, n: nat)
    requires b > 0
    ensures Pow(b, n) > 0
  {
    if n > 0 {
      PowPositive(b, n - 1);
      Product(b, Pow(b, n - 1));
    }
  }

  lemma Product(x: nat, y: nat)
    requires x > 0 && y > 0
    ensures x * y > 0
  {
  }

  lemma {:induction false} PowGrows(b: nat, m: nat, n: nat)
    requires b > 0 && m <= n
    ensures Pow(b, m) <= Pow(b, n)
  {
    if m < n {
      PowGrows(b, m, n - 1);
      PowPositive(b, n - 1);
      AtLeast(b, Pow(b, n - 1));
    }
  }

  lemma AtLeast(x: nat, y: nat)
    requires x > 0
    ensures x * y >= y
  {
    assert (x - 1) * y >= 0;
  }

  lemma Multiply(a: nat, b: nat, x: nat, y: nat)
    requires a < b && x <= y && x > 0
    ensures a * x < b * y
  {
    assert (b - a) * x > 0;
    assert b * (y - x) >= 0;
    assert b * y == a * x + (b - a) * x + b * (y - x);
  }

  /** A power of a lesser power, to the same exponent, is less. */
  lemma {:induction false} PowersLess(b: nat, p: nat, c: nat, q: nat, n: nat)
    requires b > 0 && Pow(b, p) < Pow(c, q)
    ensures if n == 0 then Pow(b, p * n) == Pow(c, q * n) else Pow(b, p * n) < Pow(c, q * n)
  {
    hide Pow;
    PowZero(b);
    PowZero(c);
    if n > 0 {
      PowersLess(b, p, c, q, n - 1);
      Grow(p, n);
      Grow(q, n);
      PowAdds(b, p, p * (n - 1));
      PowAdds(c, q, q * (n - 1));
      PowPositive(b, p * (n - 1));
      Multiply(Pow(b, p), Pow(c, q), Pow(b, p * (n - 1)), Pow(c, q * (n - 1)));
    }
  }

  lemma PowZero(b: nat)
    ensures Pow(b, 0) == 1
  {
  }

  lemma Grow(p: nat, n: nat)
    requires n > 0
    ensures p * n == p + p * (n - 1) && p * (n - 1) >= 0
  {
  }

  lemma {:induction false} ByteIsTwos(n: nat)
    ensures Pow(256, n) == Pow(2, 8 * n)
  {
    if n > 0 {
      ByteIsTwos(n - 1);
      PowAdds(2, 8, 8 * (n - 1));
      assert Pow(2, 8) == 256 by {
        assert Pow(2, 4) == 16;
        PowAdds(2, 4, 4);
      }
    }
  }

  /** A hundred bytes are fewer than 137 digits: 58 to the 7th is above 2 to the 41st. */
  lemma HundredBytes()
    ensures Pow(256, 100) < Pow(58, 137)
  {
    SmallPowers();
    hide Pow;
    PowersLess(2, 41, 58, 7, 19);
    PowAdds(2, 779, 23);
    PowAdds(58, 133, 4);
    PowPositive(2, 779);
    Multiply(Pow(2, 23), Pow(58, 4), Pow(2, 779), Pow(58, 133));
    ByteIsTwos(100);
    PowGrows(2, 800, 802);
  }

  lemma SmallPowers()
    ensures Pow(2, 41) < Pow(58, 7) && Pow(2, 23) < Pow(58, 4)
  {
    assert Pow(2, 5) == 32;
    assert Pow(2, 10) == 1024 by { PowAdds(2, 5, 5); }
    assert Pow(2, 20) == 1048576 by { PowAdds(2, 10, 10); }
    assert Pow(2, 3) == 8;
    assert Pow(2, 23) == 8388608 by { PowAdds(2, 20, 3); }
    assert Pow(2, 40) == 1099511627776 by { PowAdds(2, 20, 20); }
    assert Pow(2, 41) == 2199023255552 by { PowAdds(2, 40, 1); }
    assert Pow(58, 3) == 195112;
    assert Pow(58, 4) == 11316496 by { PowAdds(58, 3, 1); }
    assert Pow(58, 7) == 2207984167552 by { PowAdds(58, 4, 3); }
  }

  lemma {:induction false} TopDigit(digits: seq<nat>)
    requires digits != [] && digits[|digits| - 1] > 0
    ensures Pow(58, |digits| - 1) <= Value(digits)
  {
    AtLeast(digits[|digits| - 1], Pow(58, |digits| - 1));
  }

  lemma {:induction false} BytesBelow(bytes: seq<nat>)
    requires AreBytes(bytes)
    ensures ValueOf(bytes) < Pow(256, |bytes|)
  {
    if bytes != [] {
      var before := bytes[..|bytes| - 1];
      BytesBelow(before);
      assert (ValueOf(before) + 1) * 256 <= Pow(256, |before|) * 256;
    }
  }

  /** The digits never exceed what is set aside for them. */
  lemma DigitsFit(bytes: seq<nat>, digits: seq<nat>)
    requires AreBytes(bytes) && Value(digits) == ValueOf(bytes) && (digits != [] ==> digits[|digits| - 1] > 0)
    ensures |digits| <= |bytes| * 137 / 100 + 1
  {
    hide Pow;
    var (n, m) := (|digits|, |bytes|);
    if n > m * 137 / 100 + 1 {
      TopDigit(digits);
      BytesBelow(bytes);
      assert 100 * (n - 1) >= 137 * m;
      PowersLess(58, n - 1, 256, m, 100);
      assert (n - 1) * 100 == 100 * (n - 1) && m * 100 == 100 * m;
      HundredBytes();
      PowersLess(256, 100, 58, 137, m);
      PowGrows(58, 137 * m, 100 * (n - 1));
    }
  }

  // ----- the text -----

  function Zeros(bytes: seq<nat>): (zeros: nat)
    ensures zeros <= |bytes| && forall i :: 0 <= i < zeros ==> bytes[i] == 0
    ensures zeros < |bytes| ==> bytes[zeros] != 0
  {
    if bytes != [] && bytes[0] == 0 then 1 + Zeros(bytes[1..]) else 0
  }

  /** The text of digits, the highest first. */
  function Text(digits: seq<nat>): (text: seq<char>)
    requires AreDigits(digits)
    ensures |text| == |digits|
  {
    seq(|digits|, i requires 0 <= i < |digits| => Alphabet()[digits[|digits| - 1 - i]])
  }

  function Ones(n: nat): (ones: seq<char>)
    ensures |ones| == n
  {
    seq(n, _ => '1')
  }

  /** The bytes in quotes: a `1` for each leading zero, and the digits of the rest. */
  method Encode(bytes: seq<nat>) returns (text: seq<char>)
    requires AreBytes(bytes)
    ensures |text| >= 2 && text[0] == '"' && text[|text| - 1] == '"'
    ensures InAlphabet(text[1..|text| - 1]) && Decode(text[1..|text| - 1]) == bytes
    ensures |text| <= 2 + Zeros(bytes) + ((|bytes| - Zeros(bytes)) * 137 / 100 + 1)
  {
    hide Value, ValueOf, Decode;
    var zeros := Zeros(bytes);
    var rest := bytes[zeros..];
    var digits := Digits(rest);
    DigitsFit(rest, digits);
    text := ['"'] + Ones(zeros) + Text(digits) + ['"'];
    assert text[1..|text| - 1] == Ones(zeros) + Text(digits);
    DecodesBack(bytes, digits);
    TextInAlphabet(zeros, digits);
  }

  // ----- decoding -----

  function LeadingOnes(text: seq<char>): (ones: nat)
    ensures ones <= |text|
  {
    if text != [] && text[0] == '1' then 1 + LeadingOnes(text[1..]) else 0
  }

  /** Where a letter stands among letters; past them where it does not. */
  function IndexOf(letters: string, letter: char, from: nat): (index: nat)
    requires from <= |letters|
    ensures from <= index <= |letters|
    ensures index < |letters| ==> letters[index] == letter
    ensures forall i :: from <= i < index ==> letters[i] != letter
    decreases |letters| - from
  {
    if from == |letters| || letters[from] == letter then from else IndexOf(letters, letter, from + 1)
  }

  /** The digit a letter stands for. */
  function DigitOf(letter: char): nat {
    IndexOf(Alphabet(), letter, 0)
  }

  /** The digits of a text, the lowest first. */
  function DigitsOf(text: seq<char>): (digits: seq<nat>)
    ensures |digits| == |text|
  {
    seq(|text|, i requires 0 <= i < |text| => DigitOf(text[|text| - 1 - i]))
  }

  /** What a text stands for: a zero byte for each leading `1`, and the bytes of the rest's value. */
  function Decode(text: seq<char>): seq<nat> {
    var ones := LeadingOnes(text);
    seq(ones, _ => 0) + BytesOf(Value(DigitsOf(text[ones..])))
  }

  /** Where a digit's letter is among all characters: the alphabet is six stretches of them. */
  function Place(digit: nat): int
    requires digit < 58
  {
    if digit < 9 then '1' as int + digit
    else if digit < 17 then 'A' as int + digit - 9
    else if digit < 22 then 'J' as int + digit - 17
    else if digit < 33 then 'P' as int + digit - 22
    else if digit < 44 then 'a' as int + digit - 33
    else 'm' as int + digit - 44
  }

  lemma LetterAt(digit: nat)
    requires digit < 58
    ensures Alphabet()[digit] as int == Place(digit)
  {
    hide Follow;
    DigitsFollow();
    CapitalsFollow();
    MoreCapitalsFollow();
    SmallFollow();
    MoreSmallFollow();
    if digit < 9 {
      Stretch(DIGITS, digit, '1');
    } else if digit < 17 {
      Stretch(A_TO_H, digit - 9, 'A');
    } else if digit < 22 {
      Stretch(J_TO_N, digit - 17, 'J');
    } else if digit < 33 {
      Stretch(P_TO_Z, digit - 22, 'P');
    } else if digit < 44 {
      Stretch(SMALL_A_TO_K, digit - 33, 'a');
    } else {
      Stretch(SMALL_M_TO_Z, digit - 44, 'm');
    }
  }

  ghost predicate Follow(letters: string, first: char) {
    && letters != [] && letters[0] == first
    && forall i :: 0 < i < |letters| ==> letters[i] as int == letters[i - 1] as int + 1
  }

  lemma DigitsFollow()
    ensures Follow(DIGITS, '1') && |DIGITS| == 9
  {
  }

  lemma CapitalsFollow()
    ensures Follow(A_TO_H, 'A') && Follow(J_TO_N, 'J') && |A_TO_H| == 8 && |J_TO_N| == 5
  {
  }

  lemma MoreCapitalsFollow()
    ensures Follow(P_TO_Z, 'P') && |P_TO_Z| == 11
  {
  }

  lemma SmallFollow()
    ensures Follow(SMALL_A_TO_K, 'a') && |SMALL_A_TO_K| == 11
  {
  }

  lemma MoreSmallFollow()
    ensures Follow(SMALL_M_TO_Z, 'm') && |SMALL_M_TO_Z| == 14
  {
  }

  /** Letters that follow one another. */
  lemma {:induction false} Stretch(letters: string, k: nat, first: char)
    requires k < |letters| && Follow(letters, first)
    ensures letters[k] as int == first as int + k
  {
    if k > 0 {
      Stretch(letters, k - 1, first);
    }
  }

  lemma AlphabetDistinct(i: nat, j: nat)
    requires i < 58 && j < 58 && Alphabet()[i] == Alphabet()[j]
    ensures i == j
  {
    hide Alphabet;
    LetterAt(i);
    LetterAt(j);
  }

  predicate IsAlphanumeric(letter: char) {
    '0' <= letter <= '9' || 'A' <= letter <= 'Z' || 'a' <= letter <= 'z'
  }

  /** The alphabet ascends, and it is every digit and letter but the four that are easily confused. */
  lemma AlphabetIs(i: nat, j: nat, letter: char)
    ensures i < j < 58 ==> Alphabet()[i] < Alphabet()[j]
    ensures letter in Alphabet() <==> IsAlphanumeric(letter) && letter !in ['0', 'O', 'I', 'l']
  {
    hide Alphabet;
    if i < j < 58 {
      LetterAt(i);
      LetterAt(j);
    }
    forall digit | 0 <= digit < 58 ensures Alphabet()[digit] as int == Place(digit) {
      LetterAt(digit);
    }
    if IsAlphanumeric(letter) && letter !in ['0', 'O', 'I', 'l'] {
      assert Alphabet()[DigitAt(letter)] == letter;
    }
  }

  /** The digit whose place a character is in. */
  function DigitAt(letter: char): (digit: nat)
    requires IsAlphanumeric(letter) && letter !in ['0', 'O', 'I', 'l']
    ensures digit < 58 && Place(digit) == letter as int
  {
    var at := letter as int;
    if letter <= '9' then at - '1' as int
    else if letter <= 'H' then at - 'A' as int + 9
    else if letter <= 'N' then at - 'J' as int + 17
    else if letter <= 'Z' then at - 'P' as int + 22
    else if letter <= 'k' then at - 'a' as int + 33
    else at - 'm' as int + 44
  }

  lemma DigitsBack(digits: seq<nat>)
    requires AreDigits(digits)
    ensures DigitsOf(Text(digits)) == digits
  {
    hide Alphabet;
    forall i | 0 <= i < |digits| ensures DigitsOf(Text(digits))[i] == digits[i] {
      var letter := Text(digits)[|digits| - 1 - i];
      assert letter == Alphabet()[digits[i]];
      var found := DigitOf(letter);
      if found < 58 {
        AlphabetDistinct(found, digits[i]);
      }
    }
  }

  lemma {:induction false} OnesThenText(zeros: nat, digits: seq<nat>)
    requires AreDigits(digits) && (digits != [] ==> digits[|digits| - 1] > 0)
    ensures LeadingOnes(Ones(zeros) + Text(digits)) == zeros
  {
    var text := Ones(zeros) + Text(digits);
    if zeros == 0 {
      assert text == Text(digits);
      if digits != [] {
        assert text[0] == Alphabet()[digits[|digits| - 1]];
        if text[0] == '1' {
          AlphabetDistinct(0, digits[|digits| - 1]);
        }
      }
    } else {
      assert text[1..] == Ones(zeros - 1) + Text(digits);
      OnesThenText(zeros - 1, digits);
    }
  }

  lemma {:induction false} BytesBack(bytes: seq<nat>)
    requires AreBytes(bytes) && (bytes != [] ==> bytes[0] > 0)
    ensures BytesOf(ValueOf(bytes)) == bytes
    ensures bytes != [] ==> ValueOf(bytes) > 0
  {
    if bytes != [] {
      var (before, last) := (bytes[..|bytes| - 1], bytes[|bytes| - 1]);
      BytesBack(before);
      assert ValueOf(bytes) / 256 == ValueOf(before) && ValueOf(bytes) % 256 == last;
      assert bytes == before + [last];
    }
  }

  /** Decoding the text gives the bytes back. */
  lemma DecodesBack(bytes: seq<nat>, digits: seq<nat>)
    requires AreBytes(bytes) && AreDigits(digits) && Value(digits) == ValueOf(bytes[Zeros(bytes)..])
    requires digits != [] ==> digits[|digits| - 1] > 0
    ensures Decode(Ones(Zeros(bytes)) + Text(digits)) == bytes
  {
    hide Value, ValueOf, BytesOf, LeadingOnes;
    var zeros := Zeros(bytes);
    var text := Ones(zeros) + Text(digits);
    OnesThenText(zeros, digits);
    assert text[zeros..] == Text(digits);
    DigitsBack(digits);
    BytesBack(bytes[zeros..]);
    assert bytes == seq(zeros, _ => 0) + bytes[zeros..];
  }

  ghost predicate InAlphabet(text: seq<char>) {
    forall i :: 0 <= i < |text| ==> DigitOf(text[i]) < 58
  }

  lemma TextInAlphabet(zeros: nat, digits: seq<nat>)
    requires AreDigits(digits)
    ensures InAlphabet(Ones(zeros) + Text(digits))
  {
    hide Alphabet;
    LetterAt(0);
    var text := Ones(zeros) + Text(digits);
    forall i | 0 <= i < |text| ensures DigitOf(text[i]) < 58 {
      if i < zeros {
        assert text[i] == Alphabet()[0];
      } else {
        assert text[i] == Alphabet()[digits[|digits| - 1 - (i - zeros)]];
      }
    }
  }

  // ----- one text for each byte string -----

  lemma {:induction false} LowDigit(digits: seq<nat>)
    requires digits != []
    ensures Value(digits) == digits[0] + 58 * Value(digits[1..])
  {
    var (n, last) := (|digits| - 1, digits[|digits| - 1]);
    if n == 0 {
      assert digits[1..] == [] && digits[..0] == [];
      assert Pow(58, 0) == 1;
    } else {
      var before := digits[..n];
      LowDigit(before);
      assert digits[1..][..n - 1] == before[1..];
      PowStep(n - 1);
      assert last * (58 * Pow(58, n - 1)) == 58 * (last * Pow(58, n - 1));
    }
  }

  /** Digits without a zero on top are those of their value alone. */
  lemma {:induction false} ValueInjective(a: seq<nat>, b: seq<nat>)
    requires AreDigits(a) && AreDigits(b) && Value(a) == Value(b)
    requires (a != [] ==> a[|a| - 1] > 0) && (b != [] ==> b[|b| - 1] > 0)
    ensures a == b
  {
    hide Value;
    NoDigits();
    if a != [] {
      Positive(a);
    }
    if b != [] {
      Positive(b);
    }
    if a != [] && b != [] {
      LowDigit(a);
      LowDigit(b);
      ValueInjective(a[1..], b[1..]);
      assert a == [a[0]] + a[1..] && b == [b[0]] + b[1..];
    }
  }

  lemma Positive(digits: seq<nat>)
    requires digits != [] && digits[|digits| - 1] > 0
    ensures Value(digits) > 0
  {
    TopDigit(digits);
    PowPositive(58, |digits| - 1);
  }

  lemma {:induction false} BytesStart(n: nat)
    ensures n > 0 ==> BytesOf(n) != [] && BytesOf(n)[0] > 0
    ensures AreBytes(BytesOf(n)) && ValueOf(BytesOf(n)) == n
    decreases n
  {
    if n > 0 {
      BytesStart(n / 256);
      assert BytesOf(n)[..|BytesOf(n)| - 1] == BytesOf(n / 256);
    }
  }

  lemma {:induction false} OnesFirst(text: seq<char>)
    ensures forall i :: 0 <= i < LeadingOnes(text) ==> text[i] == '1'
    ensures LeadingOnes(text) < |text| ==> text[LeadingOnes(text)] != '1'
  {
    if text != [] && text[0] == '1' {
      OnesFirst(text[1..]);
    }
  }

  /** What a text of the alphabet decodes to has a zero for each leading `1`, and the value of its other digits. */
  lemma DecodeParts(text: seq<char>)
    requires InAlphabet(text)
    ensures var (ones, digits) := (LeadingOnes(text), DigitsOf(text[LeadingOnes(text)..]));
            && Zeros(Decode(text)) == ones && ValueOf(Decode(text)[ones..]) == Value(digits)
            && AreDigits(digits) && (digits != [] ==> digits[|digits| - 1] > 0)
  {
    hide Alphabet, Value, ValueOf, BytesOf, LeadingOnes;
    OnesFirst(text);
    LetterAt(0);
    var ones := LeadingOnes(text);
    var digits := DigitsOf(text[ones..]);
    NoDigits();
    if digits != [] {
      assert text[ones] != Alphabet()[0];
      Positive(digits);
    }
    BytesStart(Value(digits));
    var bytes := BytesOf(Value(digits));
    NoBytes();
    assert Decode(text) == seq(ones, _ => 0) + bytes;
    assert Decode(text)[ones..] == bytes;
    ZerosOf(ones, bytes);
  }

  lemma NoBytes()
    ensures BytesOf(0) == []
  {
  }

  lemma {:induction false} ZerosOf(n: nat, bytes: seq<nat>)
    requires bytes != [] ==> bytes[0] > 0
    ensures Zeros(seq(n, _ => 0) + bytes) == n
  {
    var all := seq(n, _ => 0) + bytes;
    if n == 0 {
      assert all == bytes;
    } else {
      assert all[1..] == seq(n - 1, _ => 0) + bytes;
      ZerosOf(n - 1, bytes);
    }
  }

  /** Two texts of the alphabet that decode alike are the same: each byte string has one. */
  lemma DecodeInjective(a: seq<char>, b: seq<char>)
    requires InAlphabet(a) && InAlphabet(b) && Decode(a) == Decode(b)
    ensures a == b
  {
    hide Alphabet, Value, ValueOf, BytesOf, Decode, LeadingOnes, AreDigits, DigitsOf, DigitOf;
    DecodeParts(a);
    DecodeParts(b);
    var ones := LeadingOnes(a);
    ValueInjective(DigitsOf(a[ones..]), DigitsOf(b[ones..]));
    OnesFirst(a);
    OnesFirst(b);
    SameLetters(a[ones..], b[ones..]);
    assert a == a[..ones] + a[ones..] && b == b[..ones] + b[ones..];
    assert a[..ones] == b[..ones];
  }

  lemma SameLetters(a: seq<char>, b: seq<char>)
    requires InAlphabet(a) && InAlphabet(b) && DigitsOf(a) == DigitsOf(b)
    ensures a == b
  {
    hide Alphabet, DigitOf;
    assert |a| == |DigitsOf(a)| && |b| == |DigitsOf(b)|;
    forall i | 0 <= i < |a| ensures a[i] == b[i] {
      var k := |a| - 1 - i;
      assert DigitsOf(a)[k] == DigitOf(a[i]) && DigitsOf(b)[k] == DigitOf(b[i]);
      LetterOf(a[i]);
      LetterOf(b[i]);
    }
  }

  lemma LetterOf(letter: char)
    requires DigitOf(letter) < 58
    ensures Alphabet()[DigitOf(letter)] == letter
  {
  }
}
