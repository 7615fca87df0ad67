/** `format_number(num)` for integer `num`: "<thousands> K" up to one million,
    "<millions> M" above it when the millions are whole. The remaining branch,
    `round(num / 1000000, 1)`, works in floating point and is not modelled. */
module NumberFormat {
  import opened Table

  predicate IsDigit(c: char)
  {
    '0' <= c <= '9'
  }

  function DigitChar(d: int): (c: char)
    requires 0 <= d < 10
    ensures IsDigit(c) && c as int - '0' as int == d
  {
    ('0' as int + d) as char
  }

  /** The value of a run of decimal digits, most significant first. */
  function DigitsValue(s: string): int
    requires forall i :: 0 <= i < |s| ==> IsDigit(s[i])
  {
    if s == [] then 0
    else DigitsValue(s[..|s| - 1]) * 10 + (s[|s| - 1] as int - '0' as int)
  }

  /** Digits without a leading zero, a lone "0" aside. */
  predicate IsNatLiteral(d: string)
  {
    && |d| > 0
    && (forall i :: 0 <= i < |d| ==> IsDigit(d[i]))
    && (d[0] == '0' ==> |d| == 1)
  }

  /** What Python accepts back from `str(n)`: an optional minus sign before
      a natural literal other than "0". */
  predicate IsIntLiteral(s: string)
  {
    if |s| > 0 && s[0] == '-' then IsNatLiteral(s[1..]) && s[1] != '0' else IsNatLiteral(s)
  }

  /** `int(s)` for a well-formed literal. */
  function ParseInt(s: string): int
    requires IsIntLiteral(s)
  {
    if s[0] == '-' then -DigitsValue(s[1..]) else DigitsValue(s)
  }

  /** The decimal digits of `n`, no leading zero. */
  function Digits(n: nat): (s: string)
    ensures |s| > 0 && forall i :: 0 <= i < |s| ==> IsDigit(s[i])
    ensures s[0] == '0' ==> n == 0 && |s| == 1
    ensures DigitsValue(s) == n
  {
    if n < 10 then [DigitChar(n)]
    else
      var s := Digits(n / 10) + [DigitChar(n % 10)];
      assert s[..|s| - 1] == Digits(n / 10);
      s
  }

  /** `f'{n}'` for an integer: reads back as `n`. */
  function IntToString(n: int): (s: string)
    ensures IsIntLiteral(s) && ParseInt(s) == n
  {
    if n < 0 then
      var s := "-" + Digits(-n);
      assert s[1..] == Digits(-n);
      s
    else Digits(n)
  }

  /** `format_number(num)`; `None` where the source takes the floating-point
      branch. */
  function FormatNumber(num: int): (r: Option<string>)
    ensures r.None? <==> num > 1000000 && num % 1000000 != 0
  {
    if num > 1000000 then
      if num % 1000000 == 0 then Some(IntToString(num / 1000000) + " M")
      else None
    else Some(IntToString(num / 1000) + " K")
  }

  /** What the text says about `num`: up to one million, "q K" with q the
      floor of num / 1000 (so 1000000 itself gives "1000 K"); above it, "q M"
      with q * 1000000 exactly num. */
  lemma {:induction false} FormatNumberMeaning(num: int)
    requires FormatNumber(num).Some?
    ensures var s := FormatNumber(num).value;
      && |s| > 2
      && IsIntLiteral(s[..|s| - 2])
      && (num <= 1000000 ==>
            s[|s| - 2..] == " K"
            && ParseInt(s[..|s| - 2]) * 1000 <= num < ParseInt(s[..|s| - 2]) * 1000 + 1000)
      && (num > 1000000 ==>
            s[|s| - 2..] == " M"
            && ParseInt(s[..|s| - 2]) * 1000000 == num)
  {
    var s := FormatNumber(num).value;
    if num > 1000000 {
      var p := IntToString(num / 1000000);
      assert s == p + " M" && s[..|s| - 2] == p;
    } else {
      var p := IntToString(num / 1000);
      assert s == p + " K" && s[..|s| - 2] == p;
    }
  }

  /** The edges of the integer branches: exactly one million is still
      counted in thousands. */
  lemma FormatNumberAtOneMillion()
    ensures FormatNumber(1000000) == Some("1000 K")
  {
    assert Digits(1) == "1";
    assert Digits(10) == Digits(1) + ['0'];
    assert Digits(100) == Digits(10) + ['0'];
    assert Digits(1000) == Digits(100) + ['0'];
    assert IntToString(1000) + " K" == "1000 K";
  }

  lemma FormatNumberWholeMillions()
    ensures FormatNumber(2000000) == Some("2 M")
  {
    assert IntToString(2) == "2";
    assert IntToString(2) + " M" == "2 M";
  }

  lemma FormatNumberFloorsNegatives()
    ensures FormatNumber(-1500) == Some("-2 K")
  {
    assert Digits(2) == "2";
    assert IntToString(-2) + " K" == "-2 K";
  }
}
