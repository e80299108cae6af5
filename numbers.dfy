/** Decimal formatting of non-negative integers as Go's `fmt` does it for
    `%d` and `%0Nd`, with the digit string's numeric value as its inverse. */
module Numbers {

  predicate IsDigit(c: char) {
    '0' <= c <= '9'
  }

  predicate AllDigits(s: string) {
    forall k :: 0 <= k < |s| ==> IsDigit(s[k])
  }

  function Digit(d: nat): (c: char)
    requires d < 10
    ensures IsDigit(c) && c as int - '0' as int == d
  {
    ('0' as int + d) as char
  }

  /** The number a string of decimal digits denotes (most significant first). */
  function Value(s: string): nat
    requires AllDigits(s)
    decreases |s|
  {
    if s == [] then 0 else Value(s[..|s| - 1]) * 10 + (s[|s| - 1] as int - '0' as int)
  }

  /** `%d` of a non-negative integer: the shortest decimal numeral of `n`. */
  function Decimal(n: nat): string
    decreases n
  {
    if n < 10 then [Digit(n)] else Decimal(n / 10) + [Digit(n % 10)]
  }

  /** The numeral of `n` is a non-empty digit string whose value is `n`, with
      a leading zero only when `n` is zero. */
  lemma {:induction false} DecimalValue(n: nat)
    ensures Decimal(n) != [] && AllDigits(Decimal(n))
    ensures Value(Decimal(n)) == n
    ensures Decimal(n)[0] == '0' <==> n == 0
    decreases n
  {
    if n >= 10 {
      DecimalValue(n / 10);
      var r := Decimal(n);
      assert r[..|r| - 1] == Decimal(n / 10);
    }
  }

  /** `k` zero characters. */
  function Zeros(k: nat): string {
    seq(k, _ => '0')
  }

  /** The `0` flag with a width: left-pads with zeros up to `width` characters
      and never truncates. */
  function ZeroPad(s: string, width: nat): string {
    if |s| >= width then s else Zeros(width - |s|) + s
  }

  /** Leading zeros do not change the value of a numeral. */
  lemma {:induction false} ValueAfterZeros(k: nat, s: string)
    requires AllDigits(s)
    ensures AllDigits(Zeros(k) + s) && Value(Zeros(k) + s) == Value(s)
    decreases |s|
  {
    var u := Zeros(k) + s;
    if s == [] {
      assert u == Zeros(k);
      ValueOfZeros(k);
    } else {
      assert u[..|u| - 1] == Zeros(k) + s[..|s| - 1];
      ValueAfterZeros(k, s[..|s| - 1]);
    }
  }

  lemma {:induction false} ValueOfZeros(k: nat)
    ensures AllDigits(Zeros(k)) && Value(Zeros(k)) == 0
  {
    if k > 0 {
      assert Zeros(k)[..k - 1] == Zeros(k - 1);
      ValueOfZeros(k - 1);
    }
  }

  /** `%0<width>d` of a non-negative integer. */
  function PaddedDecimal(n: nat, width: nat): string {
    ZeroPad(Decimal(n), width)
  }

  /** `%0<width>d` of `n` is a numeral of exactly `max(width, digits of n)`
      characters whose value is `n`. */
  lemma PaddedDecimalValue(n: nat, width: nat)
    ensures AllDigits(PaddedDecimal(n, width)) && Value(PaddedDecimal(n, width)) == n
    ensures |PaddedDecimal(n, width)| == if |Decimal(n)| >= width then |Decimal(n)| else width
  {
    var d := Decimal(n);
    DecimalValue(n);
    if |d| < width {
      ValueAfterZeros(width - |d|, d);
    }
  }

  /** The numeral of `n` has at most three digits exactly when `n < 1000`. */
  lemma {:induction false} DecimalLength(n: nat)
    ensures n < 10 ==> |Decimal(n)| == 1
    ensures 10 <= n < 100 ==> |Decimal(n)| == 2
    ensures 100 <= n < 1000 ==> |Decimal(n)| == 3
    ensures 1000 <= n ==> |Decimal(n)| >= 4
    decreases n
  {
    if n >= 10 {
      DecimalLength(n / 10);
    }
  }

  /** Distinct numbers never share a padded numeral, whatever the width. */
  lemma PaddedDecimalInjective(m: nat, n: nat, width: nat)
    requires PaddedDecimal(m, width) == PaddedDecimal(n, width)
    ensures m == n
  {
    PaddedDecimalValue(m, width);
    PaddedDecimalValue(n, width);
  }
}
