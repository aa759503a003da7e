/**
 * The integer conversion `int(text)` that the character-set selector goes
 * through when it is not a bracketed list: an optional sign followed by
 * one or more decimal digits, or a failure (Python's ValueError).
 */
module Decimal {
  import opened Wrappers

  predicate IsDigit(c: char)
  {
    '0' <= c <= '9'
  }

  predicate AllDigits(s: string)
  {
    forall i :: 0 <= i < |s| ==> IsDigit(s[i])
  }

  /** The value of a run of decimal digits, most significant first. */
  function DigitsValue(s: string): nat
    requires AllDigits(s)
  {
    if |s| == 0 then 0
    else 10 * DigitsValue(s[..|s| - 1]) + (s[|s| - 1] as int - '0' as int)
  }

  /** Python's `int(text)` on a plain decimal numeral. */
  function ParseInt(text: string): (r: Option<int>)
    ensures r.Some? ==> |text| >= 1 && IsDigit(text[|text| - 1])
    ensures |text| >= 1 && !IsDigit(text[0]) && text[0] != '+' && text[0] != '-' ==> r.None?
  {
    if |text| >= 1 && (text[0] == '+' || text[0] == '-') then
      var digits := text[1..];
      if |digits| >= 1 && AllDigits(digits) then
        Some(if text[0] == '-' then -(DigitsValue(digits) as int) else DigitsValue(digits))
      else None
    else if |text| >= 1 && AllDigits(text) then Some(DigitsValue(text))
    else None
  }

  /** The decimal numeral of `n`, without sign or leading zeros. */
  function Numeral(n: nat): (s: string)
    ensures |s| >= 1 && AllDigits(s)
  {
    if n < 10 then ['0' + n as char]
    else Numeral(n / 10) + ['0' + (n % 10) as char]
  }

  /** Reading the numeral of `n` back gives `n`. */
  lemma {:induction false} NumeralValue(n: nat)
    ensures DigitsValue(Numeral(n)) == n
  {
    if n >= 10 {
      var s := Numeral(n);
      NumeralValue(n / 10);
      assert s[..|s| - 1] == Numeral(n / 10);
    }
  }

  /** `int(str(n)) == n` and `int("-" + str(n)) == -n`. */
  lemma ParseNumeral(n: nat)
    ensures ParseInt(Numeral(n)) == Some(n)
    ensures ParseInt("-" + Numeral(n)) == Some(-(n as int))
  {
    NumeralValue(n);
    assert ("-" + Numeral(n))[1..] == Numeral(n);
  }
}
