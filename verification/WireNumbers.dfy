/** Canonical decimal numbers on the wire, as `wire_integer` of scripts/detection_process_package.py accepts them.
    There is one text for every number: digits without a leading zero, and a minus sign only before a positive
    number. */
module WireNumbers {
  import opened Options

  const DIGITS := "0123456789"
  const UNSIGNED_MAX := 0xffff_ffff_ffff_ffff
  const SIGNED_MIN := -0x8000_0000_0000_0000
  const SIGNED_MAX := 0x7fff_ffff_ffff_ffff

  function Digit(d: nat): char
    requires d < 10
  {
    DIGITS[d]
  }

  predicate IsDigit(c: char) {
    '0' <= c <= '9'
  }

  function DigitValue(c: char): (d: nat)
    requires IsDigit(c)
    ensures d < 10 && Digit(d) == c
  {
    var d := c as int - '0' as int;
    DigitIs(d);
    d
  }

  lemma DigitIs(d: nat)
    requires d < 10
    ensures IsDigit(Digit(d)) && Digit(d) as int == '0' as int + d
  {
  }

  /** `str` of a number that is not negative. */
  function Natural(n: nat): (text: string)
    ensures |text| >= 1 && forall i :: 0 <= i < |text| ==> IsDigit(text[i])
  {
    DigitIs(n % 10);
    if n < 10 then [Digit(n)] else Natural(n / 10) + [Digit(n % 10)]
  }

  /** `str` of any number. */
  function Decimal(n: int): string {
    if n < 0 then "-" + Natural(-n) else Natural(n)
  }

  /** `int` of a text of digits. */
  function Value(text: string): nat
    requires forall i :: 0 <= i < |text| ==> IsDigit(text[i])
  {
    if text == [] then 0 else 10 * Value(text[..|text| - 1]) + DigitValue(text[|text| - 1])
  }

  predicate AllDigits(text: string) {
    |text| >= 1 && forall i :: 0 <= i < |text| ==> IsDigit(text[i])
  }

  /** `int` of the plain texts; the others that it accepts (signs, spaces, underscores) are never what `str` writes. */
  function Parse(text: string): Option<int> {
    if AllDigits(text) then Some(Value(text))
    else if |text| >= 2 && text[0] == '-' && AllDigits(text[1..]) then Some(-(Value(text[1..]) as int))
    else None
  }

  predicate InRange(n: int, signed: bool) {
    if signed then SIGNED_MIN <= n <= SIGNED_MAX else 0 <= n <= UNSIGNED_MAX
  }

  lemma {:induction false} ValueOfNatural(n: nat)
    ensures Value(Natural(n)) == n
  {
    DigitIs(n % 10);
    if n >= 10 {
      ValueOfNatural(n / 10);
      var text := Natural(n);
      assert text[..|text| - 1] == Natural(n / 10);
      assert DigitValue(Digit(n % 10)) == n % 10;
    } else {
      assert Natural(n)[..0] == [];
    }
  }

  lemma ParseDecimal(n: int)
    ensures Parse(Decimal(n)) == Some(n)
  {
    var text := Decimal(n);
    if n < 0 {
      var k: nat := -n;
      ParseMinus(k);
      assert text == "-" + Natural(k);
    } else {
      ParseNatural(n);
      assert text == Natural(n);
    }
    assert Parse(text) == Some(n);
  }

  lemma NaturalDigits(n: nat)
    ensures AllDigits(Natural(n)) && Value(Natural(n)) == n
  {
    ValueOfNatural(n);
  }

  lemma ParseNatural(n: nat)
    ensures Parse(Natural(n)) == Some(n)
  {
    NaturalDigits(n);
    ParseDigits(Natural(n));
  }

  lemma ParseMinus(n: nat)
    ensures Parse("-" + Natural(n)) == Some(-(n as int))
  {
    NaturalDigits(n);
    ParseNegative(Natural(n));
  }

  lemma ParseDigits(digits: string)
    requires AllDigits(digits)
    ensures Parse(digits) == Some(Value(digits))
  {
  }

  lemma ParseNegative(digits: string)
    requires AllDigits(digits)
    ensures Parse("-" + digits) == Some(-(Value(digits) as int))
  {
    var text := "-" + digits;
    assert !IsDigit('-') && text[0] == '-' && text[1..] == digits;
  }

  function WireInteger(text: string, signed: bool): (number: Option<int>)
    ensures number.Some? ==> text == Decimal(number.value) && InRange(number.value, signed)
  {
    var number := Parse(text);
    if number.Some? && Decimal(number.value) == text && InRange(number.value, signed) then number else None
  }

  /** Exactly the canonical texts of numbers in range are accepted: 64 bits, with or without a sign. */
  lemma WireIntegerExactly(text: string, n: int, signed: bool)
    ensures WireInteger(text, signed) == Some(n) <==> text == Decimal(n) && InRange(n, signed)
    ensures InRange(n, true) <==> -0x8000_0000_0000_0000 <= n < 0x8000_0000_0000_0000
    ensures InRange(n, false) <==> 0 <= n < 0x1_0000_0000_0000_0000
  {
    ParseDecimal(n);
  }

  /** A digit is the character that many after `0`, and a longer text ends with the last digit of its number. */
  lemma NaturalIs(n: nat)
    ensures n < 10 ==> Natural(n) == ['0' + n as char]
    ensures n >= 10 ==> Natural(n) == Natural(n / 10) + ['0' + (n % 10) as char]
  {
    LastDigit(n % 10);
    if n < 10 {
      LastDigit(n);
    }
  }

  lemma LastDigit(d: nat)
    requires d < 10
    ensures Digit(d) == '0' + d as char
  {
    DigitIs(d);
  }
}
