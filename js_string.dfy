/**
 * The decimal rendering JavaScript uses when a number is turned into text
 * (`String(n)`, a template literal), for the integers the code converts.
 */
module JsString {
  function DigitChar(d: nat): char
    requires d < 10
  {
    "0123456789"[d]
  }

  function Digits(n: nat): (s: string)
    ensures |s| > 0
    ensures n < 10 <==> |s| == 1
    decreases n
  {
    if n < 10 then [DigitChar(n)] else Digits(n / 10) + [DigitChar(n % 10)]
  }

  /** `String(n)` for an integer `n`. */
  function DecimalString(n: int): (s: string)
    ensures s != ""
  {
    if n < 0 then "-" + Digits(-n) else Digits(n)
  }

  /** Different digits are different characters. */
  lemma DigitCharInjective(d: nat, e: nat)
    requires d < 10 && e < 10 && DigitChar(d) == DigitChar(e)
    ensures d == e
  {
  }

  /** Different natural numbers have different decimal renderings. */
  lemma {:induction false} DigitsInjective(n: nat, m: nat)
    requires Digits(n) == Digits(m)
    ensures n == m
    decreases n
  {
    if n < 10 && m < 10 {
      DigitCharInjective(n, m);
    } else if n >= 10 && m >= 10 {
      var s := Digits(n);
      assert s[..|s| - 1] == Digits(n / 10) && Digits(m) [..|s| - 1] == Digits(m / 10);
      DigitsInjective(n / 10, m / 10);
      DigitCharInjective(n % 10, m % 10);
    }
  }
}
