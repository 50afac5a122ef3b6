/** Unsigned decimal numerals, as Rust prints and parses them. */
module Decimal {
  import opened Common

  predicate IsDigit(c: char) { '0' <= c <= '9' }

  predicate AllDigits(s: string) { forall i :: 0 <= i < |s| ==> IsDigit(s[i]) }

  function DigitChar(d: nat): char
    requires d < 10
  {
    '0' + d as char
  }

  function DigitValue(c: char): nat
    requires IsDigit(c)
  {
    c as int - '0' as int
  }

  /** `to_string` on an unsigned integer */
  function ToDecimal(n: nat): string {
    if n < 10 then [DigitChar(n)] else ToDecimal(n / 10) + [DigitChar(n % 10)]
  }

  function DigitsValue(s: string): nat
    requires AllDigits(s)
  {
    if s == [] then 0 else 10 * DigitsValue(s[..|s| - 1]) + DigitValue(s[|s| - 1])
  }

  /** `str::parse::<u16>`: an optional plus sign, then at least one digit, at most 65535. */
  function ParseU16(s: string): Option<nat> {
    var digits := if s != [] && s[0] == '+' then s[1..] else s;
    if digits != [] && AllDigits(digits) && DigitsValue(digits) <= 65535 then Some(DigitsValue(digits)) else None
  }

  /** A printed numeral is a nonempty string of digits that reads back as the number. */
  lemma {:induction false} NumeralReadsBack(n: nat)
    ensures ToDecimal(n) != [] && AllDigits(ToDecimal(n)) && DigitsValue(ToDecimal(n)) == n
    decreases n
  {
    if n < 10 {
      assert ToDecimal(n)[..0] == [];
    } else {
      NumeralReadsBack(n / 10);
      assert ToDecimal(n)[..|ToDecimal(n)| - 1] == ToDecimal(n / 10);
    }
  }

  /** Digits from the high-order one to the low-order one. */
  lemma {:induction false} DecimalDigits(q: nat, r: nat)
    requires r < 10
    ensures ToDecimal(r) == ["0123456789"[r]]
    ensures q > 0 ==> ToDecimal(10 * q + r) == ToDecimal(q) + ["0123456789"[r]]
  {
    DigitIs(r);
  }

  lemma {:induction false} DigitIs(r: nat)
    requires r < 10
    ensures DigitChar(r) == "0123456789"[r]
  {
    match r
    case 0 => case 1 => case 2 => case 3 => case 4 => case 5 => case 6 => case 7 => case 8 =>
    case _ =>
  }
}
