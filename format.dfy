/** Number formatting as the answer templates use it: `str()` of an integer,
    `round(x, 2)`, and the format specification `:,.0f` (round half to even to
    a whole number, thousands separated by commas). Values are exact reals, so
    rounding is decided on the exact value. */
module Format {

  /** Python's `round(x)` rule: the nearest integer, ties to the even one. */
  function RoundHalfEven(x: real): (r: int)
    ensures -0.5 <= r as real - x <= 0.5
    ensures (r as real - x == 0.5 || x - r as real == 0.5) ==> r % 2 == 0
  {
    var f := x.Floor;
    var d := x - f as real;
    if d < 0.5 then f
    else if d > 0.5 then f + 1
    else if f % 2 == 0 then f
    else f + 1
  }

  /** The two properties in the contract of RoundHalfEven single out one integer. */
  lemma RoundHalfEvenUnique(x: real, n: int)
    requires -0.5 <= n as real - x <= 0.5
    requires (n as real - x == 0.5 || x - n as real == 0.5) ==> n % 2 == 0
    ensures n == RoundHalfEven(x)
  {
  }

  /** `round(x, 2)`: the nearest multiple of 0.01, ties to an even count of hundredths. */
  function Round2(x: real): (r: real)
    ensures (r * 100.0).Floor as real == r * 100.0
    ensures -0.005 <= r - x <= 0.005
    ensures (r - x == 0.005 || x - r == 0.005) ==> (r * 100.0).Floor % 2 == 0
  {
    RoundHalfEven(x * 100.0) as real / 100.0
  }

  /** A whole number of hundredths within half a cent of x, even on a tie,
      is `round(x, 2)`: the contract of Round2 determines its value. */
  lemma Round2Unique(x: real, n: int)
    requires -0.005 <= n as real / 100.0 - x <= 0.005
    requires (n as real / 100.0 - x == 0.005 || x - n as real / 100.0 == 0.005) ==> n % 2 == 0
    ensures Round2(x) == n as real / 100.0
  {
    RoundHalfEvenUnique(x * 100.0, n);
  }

  predicate IsDigit(c: char) {
    '0' <= c <= '9'
  }

  function DigitChar(d: nat): (c: char)
    requires d < 10
    ensures IsDigit(c) && c as int - '0' as int == d
  {
    "0123456789"[d]
  }

  /** Decimal digits of n, most significant first, without leading zeros. */
  function Digits(n: nat): (s: string)
    ensures |s| >= 1
    ensures forall i :: 0 <= i < |s| ==> IsDigit(s[i])
    ensures |s| > 1 ==> s[0] != '0'
  {
    if n < 10 then [DigitChar(n)] else Digits(n / 10) + [DigitChar(n % 10)]
  }

  /** `str(n)` for a Python int. */
  function IntToString(n: int): string {
    if n < 0 then "-" + Digits(-n) else Digits(n)
  }

  /** The value of a string of decimal digits (the inverse of Digits). */
  function ParseDigits(s: string): int
    requires forall i :: 0 <= i < |s| ==> IsDigit(s[i])
  {
    if s == [] then 0
    else ParseDigits(s[..|s| - 1]) * 10 + (s[|s| - 1] as int - '0' as int)
  }

  lemma {:induction false} DigitsRoundTrip(n: nat)
    ensures ParseDigits(Digits(n)) == n
  {
    if n >= 10 {
      var s := Digits(n);
      assert s[..|s| - 1] == Digits(n / 10);
      DigitsRoundTrip(n / 10);
    }
  }

  /** Three digits, zero padded (one group after a thousands separator). */
  function Pad3(n: nat): (s: string)
    requires n < 1000
    ensures |s| == 3
  {
    [DigitChar(n / 100), DigitChar(n / 10 % 10), DigitChar(n % 10)]
  }

  /** The digits of n with a comma before every group of three from the right. */
  function Grouped(n: nat): string {
    if n < 1000 then Digits(n) else Grouped(n / 1000) + "," + Pad3(n % 1000)
  }

  /** `f"{x:,.0f}"`: the sign is that of x itself, so a small negative value
      prints as "-0", as Python does. */
  function Money(x: real): string {
    if x < 0.0 then "-" + Grouped(RoundHalfEven(-x)) else Grouped(RoundHalfEven(x))
  }

  function RemoveCommas(s: string): (r: string)
    ensures ',' !in r
  {
    if s == [] then []
    else (if s[0] == ',' then [] else [s[0]]) + RemoveCommas(s[1..])
  }

  lemma {:induction false} RemoveCommasAppend(a: string, b: string)
    ensures RemoveCommas(a + b) == RemoveCommas(a) + RemoveCommas(b)
  {
    if a != [] {
      assert (a + b)[0] == a[0] && (a + b)[1..] == a[1..] + b;
      RemoveCommasAppend(a[1..], b);
      var h := if a[0] == ',' then [] else [a[0]];
      calc {
        RemoveCommas(a + b);
        h + RemoveCommas(a[1..] + b);
        h + (RemoveCommas(a[1..]) + RemoveCommas(b));
        (h + RemoveCommas(a[1..])) + RemoveCommas(b);
        RemoveCommas(a) + RemoveCommas(b);
      }
    } else {
      assert a + b == b;
    }
  }

  lemma {:induction false} RemoveCommasOfDigits(s: string)
    requires forall i :: 0 <= i < |s| ==> IsDigit(s[i])
    ensures RemoveCommas(s) == s
  {
    if s != [] {
      RemoveCommasOfDigits(s[1..]);
    }
  }

  /** The last three digits of a number of four or more digits are its value mod 1000. */
  lemma DigitsSplit(n: nat)
    requires n >= 1000
    ensures Digits(n) == Digits(n / 1000) + Pad3(n % 1000)
  {
    var a, b, c := n / 10, n / 100, n / 1000;
    assert a / 10 == b && b / 10 == c;
    assert b % 10 == n % 1000 / 100;
    assert a % 10 == n % 1000 / 10 % 10;
    assert n % 10 == n % 1000 % 10;
    calc {
      Digits(n);
      Digits(a) + [DigitChar(n % 10)];
      Digits(b) + [DigitChar(a % 10)] + [DigitChar(n % 10)];
      Digits(c) + [DigitChar(b % 10)] + [DigitChar(a % 10)] + [DigitChar(n % 10)];
      Digits(c) + Pad3(n % 1000);
    }
  }

  /** Dropping the thousands separators from Grouped(n) gives the plain digits of n,
      so the separators change the layout of a number and never its value. */
  lemma {:induction false} GroupedDigits(n: nat)
    ensures RemoveCommas(Grouped(n)) == Digits(n)
  {
    if n < 1000 {
      RemoveCommasOfDigits(Digits(n));
    } else {
      GroupedDigits(n / 1000);
      RemoveCommasAppend(Grouped(n / 1000) + ",", Pad3(n % 1000));
      RemoveCommasAppend(Grouped(n / 1000), ",");
      RemoveCommasOfDigits(Pad3(n % 1000));
      DigitsSplit(n);
    }
  }

  /** The number a `:,.0f` field shows is x rounded half to even. */
  lemma MoneyValue(x: real)
    requires x >= 0.0
    ensures var s := RemoveCommas(Money(x));
      (forall i :: 0 <= i < |s| ==> IsDigit(s[i])) && ParseDigits(s) == RoundHalfEven(x)
  {
    GroupedDigits(RoundHalfEven(x));
    DigitsRoundTrip(RoundHalfEven(x));
  }
}
