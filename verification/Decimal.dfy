/**
 Decimals as text: the digits before the point, the point, and as many digits after it as the
 column's scale says. The reader is defined on its own: a sign, digits, perhaps a point.
 */
module Decimal {
  import opened Wrappers

  type Text = seq<char>

  /** The greatest scale of a decimal: ten to it is the last power of ten its integers hold. */
  const MAX_SCALE := 38
  const HALF := 0x8000_0000_0000_0000_0000_0000_0000_0000

  /** Ten to the `n`. */
  function Ten(n: nat): (power: nat)
    ensures power > 0
  {
    if n == 0 then 1 else 10 * Ten(n - 1)
  }

  /** Every scale's power of ten fits, and no further one does. */
  lemma PowersFit(scale: nat)
    ensures Ten(scale) < HALF <==> scale <= MAX_SCALE
  {
    assert Ten(9) == 1_000_000_000;
    assert Ten(18) == 1_000_000_000 * 1_000_000_000 by { TenAdds(9, 9); }
    assert Ten(36) == 1_000_000_000_000_000_000 * 1_000_000_000_000_000_000 by { TenAdds(18, 18); }
    TenAdds(36, 2);
    TenAdds(36, 3);
    if scale <= MAX_SCALE {
      TenGrows(scale, MAX_SCALE);
    } else {
      TenGrows(MAX_SCALE + 1, scale);
    }
  }

  lemma {:induction false} TenAdds(m: nat, n: nat)
    ensures Ten(m + n) == Ten(m) * Ten(n)
  {
    if n > 0 {
      TenAdds(m, n - 1);
      assert Ten(m) * (10 * Ten(n - 1)) == 10 * (Ten(m) * Ten(n - 1));
    }
  }

  lemma {:induction false} TenGrows(m: nat, n: nat)
    requires m <= n
    ensures Ten(m) <= Ten(n)
  {
    if m < n {
      TenGrows(m, n - 1);
    }
  }

  predicate IsDigit(letter: char) {
    '0' <= letter <= '9'
  }

  function DigitOf(letter: char): nat
    requires IsDigit(letter)
  {
    (letter - '0') as nat
  }

  /** A number's digits as the library prints them: no leading zero but in zero itself. */
  function Digits(n: nat): (text: Text)
    ensures text != []
  {
    (if n < 10 then [] else Digits(n / 10)) + [(n % 10) as char + '0']
  }

  /** An integer as the library prints it. */
  function Printed(n: int): Text {
    if n < 0 then ['-'] + Digits(-n) else Digits(n)
  }

  /** Division that truncates toward zero, and its remainder. */
  function Quotient(n: int, divisor: nat): int
    requires divisor > 0
  {
    if n < 0 then -(-n / divisor) else n / divisor
  }

  function Remainder(n: int, divisor: nat): int
    requires divisor > 0
  {
    if n < 0 then -(-n % divisor) else n % divisor
  }

  /** What stands after the point at a scale. */
  function FractionOf(v: int, scale: nat): nat {
    var remainder := Remainder(v, Ten(scale));
    if remainder < 0 then -remainder else remainder
  }

  // ----- reading -----

  /** What a text states: all its digits as one number, and how many of them follow the point. */
  datatype Number = Number(digits: int, after: nat)

  /** Reads on after `number`, past the point if `pointed`. */
  function ReadOn(text: Text, number: nat, after: nat, pointed: bool): Option<Number> {
    if text == [] then Some(Number(number, after))
    else if IsDigit(text[0]) then
      ReadOn(text[1..], 10 * number + DigitOf(text[0]), if pointed then after + 1 else after, pointed)
    else if text[0] == '.' && !pointed then ReadOn(text[1..], number, after, true)
    else None
  }

  function Read(text: Text): Option<Number> {
    if text != [] && text[0] == '-' then
      match ReadOn(text[1..], 0, 0, false)
      case Some(number) => Some(Number(-number.digits, number.after))
      case None => None
    else ReadOn(text, 0, 0, false)
  }

  /** Whether a text states the number `v` over ten to the `scale`. */
  predicate States(number: Number, v: int, scale: int) {
    if scale >= 0 then number.digits * Ten(scale) == v * Ten(number.after)
    else number.digits == v * Ten(-scale) * Ten(number.after)
  }

  ghost predicate AllDigits(text: Text) {
    forall i :: 0 <= i < |text| ==> IsDigit(text[i])
  }

  /** The number some digits spell after `number`. */
  function Spelled(text: Text, number: nat): nat {
    if text == [] || !IsDigit(text[0]) then number else Spelled(text[1..], 10 * number + DigitOf(text[0]))
  }

  /** Digits are read as the number they spell. */
  lemma {:induction false} ReadDigits(text: Text, rest: Text, number: nat, after: nat, pointed: bool)
    requires AllDigits(text)
    ensures ReadOn(text + rest, number, after, pointed)
            == ReadOn(rest, Spelled(text, number), if pointed then after + |text| else after, pointed)
  {
    if text == [] {
      assert text + rest == rest;
    } else {
      assert (text + rest)[1..] == text[1..] + rest;
      ReadDigits(text[1..], rest, 10 * number + DigitOf(text[0]), if pointed then after + 1 else after, pointed);
    }
  }

  lemma {:induction false} SpelledAdds(a: Text, b: Text, number: nat)
    requires AllDigits(a)
    ensures Spelled(a + b, number) == Spelled(b, Spelled(a, number))
  {
    if a == [] {
      assert a + b == b;
    } else {
      assert (a + b)[1..] == a[1..] + b;
      SpelledAdds(a[1..], b, 10 * number + DigitOf(a[0]));
    }
  }

  /** Digits after a number shift it up. */
  lemma {:induction false} SpelledShifts(text: Text, number: nat)
    requires AllDigits(text)
    ensures Spelled(text, number) == number * Ten(|text|) + Spelled(text, 0)
  {
    if text != [] {
      var digit := DigitOf(text[0]);
      SpelledShifts(text[1..], 10 * number + digit);
      SpelledShifts(text[1..], digit);
      Shifted(number, digit, Ten(|text| - 1));
    }
  }

  lemma Shifted(number: nat, digit: nat, power: nat)
    ensures (10 * number + digit) * power == number * (10 * power) + digit * power
  {
  }

  /** The printed digits spell the number. */
  lemma {:induction false} DigitsSpell(n: nat)
    ensures AllDigits(Digits(n)) && Spelled(Digits(n), 0) == n
  {
    var last := [(n % 10) as char + '0'];
    if n < 10 {
      assert Digits(n) == last;
      assert last[1..] == [];
    } else {
      DigitsSpell(n / 10);
      SpelledAdds(Digits(n / 10), last, 0);
      assert last[1..] == [];
    }
  }

  /** A number below ten to the `k` has at most `k` digits. */
  lemma {:induction false} DigitsFit(n: nat, k: nat)
    requires n < Ten(k) && k > 0
    ensures |Digits(n)| <= k
  {
    if n >= 10 {
      DigitsFit(n / 10, k - 1);
    }
  }

  lemma {:induction false} ZerosSpell(zeros: Text)
    requires forall i :: 0 <= i < |zeros| ==> zeros[i] == '0'
    ensures AllDigits(zeros) && Spelled(zeros, 0) == 0
  {
    if zeros != [] {
      ZerosSpell(zeros[1..]);
    }
  }

  /** A printed integer reads back. */
  lemma PrintedReads(n: int)
    ensures Read(Printed(n)) == Some(Number(n, 0))
  {
    var digits := Digits(if n < 0 then -n else n);
    DigitsSpell(if n < 0 then -n else n);
    ReadDigits(digits, [], 0, 0, false);
    assert digits + [] == digits;
    if n < 0 {
      assert Printed(n)[1..] == digits;
    } else {
      assert IsDigit(digits[0]);
    }
  }

  /** Without its scale applied, a text states the number only where the scale changes nothing. */
  lemma Unscaled(v: int, places: nat)
    ensures States(Number(v, 0), v, 0 - places) <==> places == 0 || v == 0
  {
    if places > 0 {
      assert Ten(places) == 10 * Ten(places - 1);
      if v > 0 {
        assert v * Ten(places) >= v * 10;
      } else if v < 0 {
        assert v * Ten(places) <= v * 10;
      }
    }
  }

  /** Padded digits after a whole number shift it up to their scale. */
  lemma PaddedSpell(whole: nat, fraction: nat, zeros: Text)
    requires forall i :: 0 <= i < |zeros| ==> zeros[i] == '0'
    ensures AllDigits(zeros + Digits(fraction))
    ensures Spelled(zeros + Digits(fraction), whole) == whole * Ten(|zeros + Digits(fraction)|) + fraction
  {
    hide Digits, Spelled, Ten, IsDigit;
    DigitsSpell(fraction);
    ZerosSpell(zeros);
    SpelledShifts(zeros + Digits(fraction), whole);
    SpelledAdds(zeros, Digits(fraction), 0);
  }

  /** The digits before the point and those after it read as one number. */
  lemma PointRead(before: Text, after: Text)
    requires AllDigits(before) && AllDigits(after)
    ensures ReadOn(before + (['.'] + after), 0, 0, false) == Some(Number(Spelled(after, Spelled(before, 0)), |after|))
  {
    hide Spelled;
    ReadDigits(before, ['.'] + after, 0, 0, false);
    assert (['.'] + after)[1..] == after;
    ReadDigits(after, [], Spelled(before, 0), 0, true);
    assert after + [] == after;
  }

  /** The digits before the point and the padded ones after it read as the whole. */
  lemma UnsignedReads(whole: nat, fraction: nat, scale: nat, zeros: Text)
    requires forall i :: 0 <= i < |zeros| ==> zeros[i] == '0'
    requires |zeros| + |Digits(fraction)| == scale
    ensures ReadOn(Digits(whole) + (['.'] + (zeros + Digits(fraction))), 0, 0, false)
            == Some(Number(whole * Ten(scale) + fraction, scale))
  {
    hide ReadOn, Digits, Spelled, Ten, IsDigit;
    DigitsSpell(whole);
    PaddedSpell(whole, fraction, zeros);
    PointRead(Digits(whole), zeros + Digits(fraction));
  }

  lemma Divided(m: nat, divisor: nat)
    requires divisor > 0
    ensures m / divisor >= 0 && m == m / divisor * divisor + m % divisor && 0 <= m % divisor < divisor
  {
  }

  /** Truncated parts are those of the magnitude, and make it up again. */
  lemma PartsOf(v: int, divisor: nat) returns (whole: nat, fraction: nat)
    requires divisor > 0
    ensures (if v < 0 then -v else v) == whole * divisor + fraction && fraction < divisor
    ensures Quotient(v, divisor) == (if v < 0 then 0 - whole else whole)
    ensures Remainder(v, divisor) == (if v < 0 then 0 - fraction else fraction)
  {
    var m: nat := if v < 0 then -v else v;
    Divided(m, divisor);
    whole, fraction := m / divisor, m % divisor;
  }

  /** A minus and digits are read as what they read without it, below zero. */
  lemma SignRead(unsigned: Text)
    ensures Read(['-'] + unsigned) == match ReadOn(unsigned, 0, 0, false)
                                      case Some(number) => Some(Number(-number.digits, number.after))
                                      case None => None
    ensures unsigned != [] && IsDigit(unsigned[0]) ==> Read(unsigned) == ReadOn(unsigned, 0, 0, false)
  {
    hide ReadOn;
    assert (['-'] + unsigned)[1..] == unsigned;
  }

  /** A written decimal reads back, its sign too where nothing but zero stands before the point. */
  lemma TextReads(v: int, scale: nat, zeros: Text)
    requires scale > 0 && forall i :: 0 <= i < |zeros| ==> zeros[i] == '0'
    requires |zeros| + |Digits(FractionOf(v, scale))| == scale
    ensures var whole := Quotient(v, Ten(scale));
            Read(SignOf(v, whole) + Printed(whole) + ['.'] + zeros + Digits(FractionOf(v, scale)))
            == Some(Number(v, scale))
  {
    hide Quotient, Remainder, Read, ReadOn, Digits, Ten, IsDigit;
    var whole, fraction := PartsOf(v, Ten(scale));
    UnsignedReads(whole, fraction, scale, zeros);
    var (digits, sign) := (Digits(whole), if v < 0 then ['-'] else []);
    var unsigned := digits + (['.'] + (zeros + Digits(fraction)));
    SignRead(unsigned);
    DigitsSpell(whole);
    assert unsigned[0] == digits[0];
    Joined(sign, digits, zeros, Digits(fraction));
    assert SignOf(v, Quotient(v, Ten(scale))) + Printed(Quotient(v, Ten(scale))) == sign + digits;
    assert [] + unsigned == unsigned;
  }

  lemma Joined(sign: Text, digits: Text, zeros: Text, fraction: Text)
    ensures sign + digits + ['.'] + zeros + fraction == sign + (digits + (['.'] + (zeros + fraction)))
  {
  }

  // ----- writing -----

  /** The sign of a number below zero that is all fraction, which its whole part does not print. */
  function SignOf(v: int, whole: int): Text {
    if v < 0 && whole == 0 then ['-'] else []
  }

  /** Writes a decimal: its text reads back as the very integer and scale stored, so it states the number but
      where a negative scale, which is not applied, multiplies one other than zero. */
  method WriteDecimal(buf: Text, v: int, scale: int) returns (more: Text)
    requires -HALF <= v < HALF && scale <= MAX_SCALE
    ensures buf <= more
    ensures Read(more[|buf|..]) == Some(Number(v, if scale > 0 then scale else 0))
    ensures States(Read(more[|buf|..]).value, v, scale) <==> scale >= 0 || v == 0
  {
    hide Read, States, Quotient, Remainder, Ten, Digits, Printed;
    if scale <= 0 {
      more := buf + Printed(v);
      PrintedReads(v);
      assert more[|buf|..] == Printed(v);
      Unscaled(v, -scale);
      return;
    }
    var divisor := Ten(scale);
    PowersFit(scale);
    assert divisor < HALF;
    var whole := Quotient(v, divisor);
    var remainder := Remainder(v, divisor);
    var fraction := if remainder < 0 then -remainder else remainder;
    FractionFits(v, scale);
    more := buf;
    if v < 0 && whole == 0 {
      more := more + ['-'];
    }
    more := more + Printed(whole) + ['.'];
    var digits := Digits(fraction);
    ghost var before := SignOf(v, whole) + Printed(whole) + ['.'];
    ghost var zeros: Text := [];
    for k := 0 to scale - |digits|
      invariant |zeros| == k && forall i :: 0 <= i < k ==> zeros[i] == '0'
      invariant more == buf + (before + zeros)
    {
      more := more + ['0'];
      zeros := zeros + ['0'];
    }
    more := more + digits;
    TextReads(v, scale, zeros);
    assert more[|buf|..] == before + zeros + digits;
    Stated(v, scale);
  }

  lemma FractionFits(v: int, scale: nat)
    requires scale > 0
    ensures |Digits(FractionOf(v, scale))| <= scale
  {
    hide Remainder, Quotient;
    var whole, fraction := PartsOf(v, Ten(scale));
    DigitsFit(fraction, scale);
  }

  lemma Stated(v: int, scale: nat)
    ensures States(Number(v, scale), v, scale)
  {
  }
}
