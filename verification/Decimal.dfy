/** Decimal text as printf writes it and atoi reads it. */
module Decimals {
  import opened Base

  predicate IsDigit(c: char) {
    '0' <= c <= '9'
  }

  function DigitChar(d: nat): (c: char)
    requires d < 10
    ensures IsDigit(c) && DigitValue(c) == d
  {
    '0' + d as char
  }

  function DigitValue(c: char): (d: nat)
    requires IsDigit(c)
    ensures d < 10
  {
    c as nat - '0' as nat
  }

  /** %u */
  function Digits(n: nat): (text: string)
    ensures text != [] && forall i :: 0 <= i < |text| ==> IsDigit(text[i])
  {
    if n < 10 then [DigitChar(n)] else Digits(n / 10) + [DigitChar(n % 10)]
  }

  /** The number a string of digits denotes. */
  function Number(text: string): nat
    requires forall i :: 0 <= i < |text| ==> IsDigit(text[i])
  {
    if text == [] then 0 else 10 * Number(text[..|text| - 1]) + DigitValue(text[|text| - 1])
  }

  lemma {:induction false} NumberOfDigits(n: nat)
    ensures Number(Digits(n)) == n
  {
    var text := Digits(n);
    if n >= 10 {
      NumberOfDigits(n / 10);
      assert text[..|text| - 1] == Digits(n / 10);
    } else {
      assert text[..|text| - 1] == [];
    }
  }

  /** Without leading zeros: so it is the shortest text that denotes n. */
  lemma {:induction false} DigitsStartNonzero(n: nat)
    ensures n == 0 ==> Digits(n) == "0"
    ensures n > 0 ==> Digits(n)[0] != '0'
  {
    if n >= 10 {
      DigitsStartNonzero(n / 10);
      assert Digits(n)[0] == Digits(n / 10)[0];
    }
  }

  /** The last `width` decimal digits of n, most significant first. */
  function Fixed(n: nat, width: nat): (text: string)
    ensures |text| == width && forall i :: 0 <= i < |text| ==> IsDigit(text[i])
  {
    if width == 0 then [] else Fixed(n / 10, width - 1) + [DigitChar(n % 10)]
  }

  /** %0{width}u: zeros on the left, and never a digit cut off. */
  function ZeroPadded(n: nat, width: nat): string {
    var text := Digits(n);
    Repeat('0', Less(width, |text|)) + text
  }

  function Pow10(n: nat): (p: nat)
    ensures 0 < p
  {
    if n == 0 then 1 else 10 * Pow10(n - 1)
  }

  lemma {:induction false} ZerosAreFixed(width: nat)
    ensures Fixed(0, width) == Repeat('0', width)
  {
    if width > 0 {
      ZerosAreFixed(width - 1);
    }
  }

  lemma {:induction false} DigitsAreFixed(n: nat, width: nat)
    requires n < Pow10(width) && 0 < width
    ensures |Digits(n)| <= width && ZeroPadded(n, width) == Fixed(n, width)
  {
    if n < 10 {
      ZerosAreFixed(width - 1);
      assert n / 10 == 0;
    } else {
      assert width > 1;
      DigitsAreFixed(n / 10, width - 1);
      assert Less(width, |Digits(n)|) == Less(width - 1, |Digits(n / 10)|);
    }
  }

  /** Dictionary order. */
  predicate Before(a: string, b: string) {
    b != [] && (a == [] || a[0] < b[0] || (a[0] == b[0] && Before(a[1..], b[1..])))
  }

  lemma {:induction false} BeforeInLast(prefix: string, c: char, d: char)
    requires c < d
    ensures Before(prefix + [c], prefix + [d])
  {
    if prefix != [] {
      BeforeInLast(prefix[1..], c, d);
      assert (prefix + [c])[1..] == prefix[1..] + [c] && (prefix + [d])[1..] == prefix[1..] + [d];
    }
  }

  lemma {:induction false} BeforeExtends(a: string, b: string, x: string, y: string)
    requires |a| == |b| && Before(a, b)
    ensures Before(a + x, b + y)
  {
    if a[0] == b[0] {
      BeforeExtends(a[1..], b[1..], x, y);
      assert (a + x)[1..] == a[1..] + x && (b + y)[1..] == b[1..] + y;
    }
  }

  lemma {:induction false} BeforeAfterPrefix(prefix: string, a: string, b: string)
    requires Before(a, b)
    ensures Before(prefix + a, prefix + b)
  {
    if prefix == [] {
      assert prefix + a == a && prefix + b == b;
    } else {
      BeforeAfterPrefix(prefix[1..], a, b);
      assert (prefix + a)[1..] == prefix[1..] + a && (prefix + b)[1..] == prefix[1..] + b;
    }
  }

  lemma {:induction false} BeforeIsStrict(a: string)
    ensures !Before(a, a)
  {
    if a != [] {
      BeforeIsStrict(a[1..]);
    }
  }

  /** Equal-width decimals sort as their numbers do. */
  lemma {:induction false} FixedIsMonotone(m: nat, n: nat, width: nat)
    requires m < n < Pow10(width)
    ensures Before(Fixed(m, width), Fixed(n, width))
  {
    if width > 0 {
      if m / 10 == n / 10 {
        BeforeInLast(Fixed(m / 10, width - 1), DigitChar(m % 10), DigitChar(n % 10));
      } else {
        FixedIsMonotone(m / 10, n / 10, width - 1);
        BeforeExtends(Fixed(m / 10, width - 1), Fixed(n / 10, width - 1), [DigitChar(m % 10)], [DigitChar(n % 10)]);
      }
    }
  }
}
