/** Decimal numerals, as Python renders integers. */
module Numerals {

  function Digit(d: int): char
    requires 0 <= d < 10
  {
    ('0' as int + d) as char
  }

  /** The last `width` decimal digits of n. */
  function Digits(n: nat, width: nat): string {
    if width == 0 then "" else Digits(n / 10, width - 1) + [Digit(n % 10)]
  }

  function Width(n: nat): nat {
    if n < 10 then 1 else 1 + Width(n / 10)
  }

  function Pow10(w: nat): nat {
    if w == 0 then 1 else 10 * Pow10(w - 1)
  }

  lemma {:induction false} DigitsLength(n: nat, w: nat)
    ensures |Digits(n, w)| == w && forall c :: c in Digits(n, w) ==> '0' <= c <= '9'
  {
    if w > 0 {
      DigitsLength(n / 10, w - 1);
    }
  }

  lemma {:induction false} WidthFits(n: nat, w: nat)
    requires w >= 1
    ensures n < Pow10(w) <==> Width(n) <= w
  {
    if n >= 10 && w > 1 {
      WidthFits(n / 10, w - 1);
    } else if n >= 10 {
      assert Pow10(1) == 10;
    } else {
      PowGrows(w);
    }
  }

  lemma {:induction false} PowGrows(w: nat)
    requires w >= 1
    ensures Pow10(w) >= 10
  {
    if w > 1 {
      PowGrows(w - 1);
    }
  }

  /** The number a numeral stands for. */
  function Value(s: string): int {
    if s == "" then 0 else Value(s[..|s| - 1]) * 10 + (s[|s| - 1] as int - '0' as int)
  }

  lemma {:induction false} ValueOfDigits(n: nat, w: nat)
    requires n < Pow10(w)
    ensures Value(Digits(n, w)) == n
  {
    if w > 0 {
      ValueOfDigits(n / 10, w - 1);
      assert Digits(n, w)[..|Digits(n, w)| - 1] == Digits(n / 10, w - 1);
    }
  }

  /** Python's str() of an integer. */
  function Decimal(n: int): string {
    if n >= 0 then Digits(n, Width(n)) else "-" + Digits(-n, Width(-n))
  }

  lemma DecimalSign(n: int)
    ensures Decimal(n) != "" && (Decimal(n)[0] == '-' <==> n < 0)
  {
    if n >= 0 {
      DigitsLength(n, Width(n));
      assert Decimal(n)[0] in Decimal(n);
    }
  }

  /** Different integers are rendered differently. */
  lemma DecimalsDiffer(a: int, b: int)
    requires Decimal(a) == Decimal(b)
    ensures a == b
  {
    DecimalSign(a);
    DecimalSign(b);
    var x, y := if a >= 0 then a else -a, if b >= 0 then b else -b;
    if a < 0 {
      assert Digits(x, Width(x)) == Decimal(a)[1..] == Decimal(b)[1..] == Digits(y, Width(y));
    }
    WidthFits(x, Width(x));
    WidthFits(y, Width(y));
    ValueOfDigits(x, Width(x));
    ValueOfDigits(y, Width(y));
  }
}
