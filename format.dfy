/** Decimal text of the numbers the commands print and export: Python's
    `str(n)` for an integer and `f"{amount:.2f}"` for an amount in cents. */
module Format {

  predicate IsDigit(c: char)
  {
    '0' <= c <= '9'
  }

  predicate AllDigits(s: string)
  {
    forall i :: 0 <= i < |s| ==> IsDigit(s[i])
  }

  /** Only digits, a minus sign and a decimal point: the characters a printed number uses. */
  predicate Numeric(s: string)
  {
    forall i :: 0 <= i < |s| ==> IsDigit(s[i]) || s[i] == '-' || s[i] == '.'
  }

  function DigitChar(d: int): (c: char)
    requires 0 <= d < 10
    ensures IsDigit(c) && c as int - '0' as int == d
  {
    ('0' as int + d) as char
  }

  /** Decimal digits of `n`, most significant first, without leading zeros. */
  function NatToString(n: nat): (s: string)
    ensures |s| >= 1 && AllDigits(s)
    ensures s[0] == '0' ==> n == 0
  {
    if n < 10 then [DigitChar(n)] else NatToString(n / 10) + [DigitChar(n % 10)]
  }

  /** The number a string of decimal digits denotes. */
  function DecimalValue(s: string): nat
    requires AllDigits(s)
  {
    if s == [] then 0 else DecimalValue(s[..|s| - 1]) * 10 + (s[|s| - 1] as int - '0' as int)
  }

  /** Reading the digits back gives the number. */
  lemma {:induction false} NatToStringValue(n: nat)
    ensures DecimalValue(NatToString(n)) == n
  {
    var s := NatToString(n);
    if n >= 10 {
      NatToStringValue(n / 10);
      assert s[..|s| - 1] == NatToString(n / 10);
    }
  }

  /** `str(n)`: a minus sign for a negative number, then its digits. */
  function IntToString(n: int): (s: string)
    ensures |s| >= 1
    ensures n < 0 <==> s[0] == '-'
    ensures n >= 0 ==> s == NatToString(n)
    ensures n < 0 ==> s[1..] == NatToString(-n)
    ensures Numeric(s)
  {
    if n < 0 then "-" + NatToString(-n) else NatToString(n)
  }

  /** `f"{x:.2f}"` for `x` = `cents` / 100: sign, whole units, a point and two digits. */
  function FormatCents(cents: int): (s: string)
    ensures |s| >= 4 && s[|s| - 3] == '.'
    ensures cents < 0 <==> s[0] == '-'
    ensures Numeric(s)
  {
    var a := if cents < 0 then -cents else cents;
    (if cents < 0 then "-" else "") + NatToString(a / 100) + "." + [DigitChar(a % 100 / 10), DigitChar(a % 10)]
  }

  /** The formatted amount denotes the amount: the sign marks a negative
      amount, and units and hundredths read back to its absolute value. */
  lemma FormatCentsValue(cents: int)
    ensures var s := FormatCents(cents);
      var body := if cents < 0 then s[1..] else s;
      && |body| >= 4
      && (cents < 0 <==> s[0] == '-')
      && body[|body| - 3] == '.'
      && AllDigits(body[..|body| - 3]) && AllDigits(body[|body| - 2..])
      && DecimalValue(body[..|body| - 3]) * 100 + DecimalValue(body[|body| - 2..])
         == (if cents < 0 then -cents else cents)
  {
    var a := if cents < 0 then -cents else cents;
    var s := FormatCents(cents);
    var units := NatToString(a / 100);
    var tail := [DigitChar(a % 100 / 10), DigitChar(a % 10)];
    var body := if cents < 0 then s[1..] else s;
    assert body == units + "." + tail;
    assert body[..|body| - 3] == units;
    assert body[|body| - 2..] == tail;
    NatToStringValue(a / 100);
    assert tail[..1] == [tail[0]];
    assert [tail[0]][..0] == [];
    assert DecimalValue(tail[..1]) == a % 100 / 10;
    assert DecimalValue(tail) == (a % 100 / 10) * 10 + a % 10;
    assert (a % 100 / 10) * 10 + a % 10 == a % 100;
  }
}
