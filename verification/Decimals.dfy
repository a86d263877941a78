/** The decimal notation `sprintf` writes for `%d`, `%u`, `%li` and `%lu`, and reading it back. */
module Decimals {
  import opened CStrings

  function Digit(d: nat): char
    requires d < 10
  {
    '0' + d as char
  }

  function Digits(n: nat): (s: string)
    ensures s != "" && forall c | c in s :: '0' <= c <= '9'
  {
    if n < 10 then [Digit(n)] else Digits(n / 10) + [Digit(n % 10)]
  }

  function Decimal(n: int): string { if n < 0 then "-" + Digits(-n) else Digits(n) }

  function ReadDigits(s: string): int {
    if s == "" then 0 else 10 * ReadDigits(s[..|s| - 1]) + (s[|s| - 1] as int - '0' as int)
  }

  function ReadDecimal(s: string): int {
    if s != "" && s[0] == '-' then -ReadDigits(s[1..]) else ReadDigits(s)
  }

  lemma {:induction false} DigitsRoundTrip(n: nat)
    ensures ReadDigits(Digits(n)) == n
  {
    if n < 10 {
      assert Digits(n)[..0] == "";
    } else {
      DigitsRoundTrip(n / 10);
      assert Digits(n)[..|Digits(n)| - 1] == Digits(n / 10);
    }
  }

  /** Decimal notation: one more digit behind those of a tenth, no zeros in front, and a minus sign. */
  lemma DecimalNotation(n: nat, d: nat)
    requires d < 10
    ensures Decimal(d) == [['0', '1', '2', '3', '4', '5', '6', '7', '8', '9'][d]]
    ensures n > 0 ==> Decimal(10 * n + d) == Decimal(n) + Decimal(d)
    ensures n > 0 ==> Decimal(-(n as int)) == "-" + Decimal(n)
  {
  }

  lemma DecimalRoundTrip(n: int)
    ensures ReadDecimal(Decimal(n)) == n
  {
    if n < 0 {
      DigitsRoundTrip(-n);
      assert Decimal(n)[1..] == Digits(-n);
    } else {
      DigitsRoundTrip(n);
      assert Digits(n)[0] in Digits(n);
    }
  }

  lemma DecimalIsClean(n: int)
    ensures Without(Decimal(n), ' ') && Without(Decimal(n), LF) && Without(Decimal(n), NUL)
  {
    var digits := Digits(if n < 0 then -n else n);
    assert ' ' !in digits && LF !in digits && NUL !in digits;
  }
}
