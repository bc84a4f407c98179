/** Decimal numbers as Python writes and reads them. */
module Numbers {
  import opened Text

  function Digit(d: nat): char
    requires d < 10
  {
    ['0', '1', '2', '3', '4', '5', '6', '7', '8', '9'][d]
  }

  function DigitValue(c: char): nat
    requires IsDigit(c)
  {
    (c - '0') as nat
  }

  /** str of a natural number */
  function Decimal(n: nat): (s: string)
    ensures s != "" && forall i :: 0 <= i < |s| ==> IsDigit(s[i])
  {
    (if n < 10 then "" else Decimal(n / 10)) + [Digit(n % 10)]
  }

  /** str of an int */
  function Signed(n: int): string {
    if n < 0 then "-" + Decimal(-n) else Decimal(n)
  }

  /** Digits, between which single underscores may stand. */
  function ParseDigits(s: string): Option<nat> {
    if s == "" || !IsDigit(s[|s| - 1]) then None
    else
      var init, d := s[..|s| - 1], DigitValue(s[|s| - 1]);
      if init == "" then Some(d)
      else
        match ParseDigits(if init[|init| - 1] == '_' then init[..|init| - 1] else init)
        case None => None
        case Some(n) => Some(10 * n + d)
  }

  /** int(s): surrounding space and one sign are allowed. */
  function ParseInt(s: string): Option<int> {
    var t := Strip(s);
    if t == "" then None
    else if t[0] == '-' || t[0] == '+' then
      match ParseDigits(t[1..])
      case None => None
      case Some(n) => Some(if t[0] == '-' then -(n as int) else n)
    else
      match ParseDigits(t)
      case None => None
      case Some(n) => Some(n)
  }

  lemma {:induction false} DigitsOfDecimal(n: nat)
    ensures ParseDigits(Decimal(n)) == Some(n)
  {
    var s := Decimal(n);
    assert DigitValue(Digit(n % 10)) == n % 10;
    if n < 10 {
      assert s == [Digit(n)] && s[..0] == "";
    } else {
      DigitsOfDecimal(n / 10);
      assert s[..|s| - 1] == Decimal(n / 10);
    }
  }

  lemma StripKeeps(s: string)
    requires s != "" && !IsSpace(s[0]) && !IsSpace(s[|s| - 1])
    ensures Strip(s) == s
  {
  }

  /** Written numbers are read back. */
  lemma IntRoundTrip(n: int)
    ensures ParseInt(Signed(n)) == Some(n)
    ensures ':' !in Signed(n)
    ensures var s := Signed(n); s != "" && !IsSpace(s[0]) && !IsSpace(s[|s| - 1])
  {
    hide Decimal, ParseDigits, Strip;
    var s := Signed(n);
    var d := Decimal(if n < 0 then -n else n);
    DigitsOfDecimal(if n < 0 then -n else n);
    assert forall c :: IsDigit(c) ==> !IsSpace(c);
    if n < 0 {
      assert s[1..] == d && s[|s| - 1] == d[|d| - 1];
    }
    StripKeeps(s);
  }
}
