/**
 Decimal text as printf-style printers write it and scanf-style scanners read it.
 */
module DecimalText {

  predicate IsDigit(c: char) {
    '0' <= c <= '9'
  }

  predicate AllDigits(s: string) {
    forall i :: 0 <= i < |s| ==> IsDigit(s[i])
  }

  function DigitValue(c: char): int {
    c as int - '0' as int
  }

  function DigitChar(d: nat): char
    requires d < 10
  {
    (48 + d) as char
  }

  /** The number a string of digits denotes, most significant digit first. */
  function Value(s: string): int {
    if s == "" then 0 else Value(s[..|s| - 1]) * 10 + DigitValue(s[|s| - 1])
  }

  function Pow10(n: nat): nat {
    if n == 0 then 1 else 10 * Pow10(n - 1)
  }

  function PrintNat(n: nat): string {
    if n < 10 then [DigitChar(n)] else PrintNat(n / 10) + [DigitChar(n % 10)]
  }

  /** `%ld`. */
  function PrintInt(n: int): string {
    if n < 0 then "-" + PrintNat(-n) else PrintNat(n)
  }

  function Zeros(k: nat): string {
    seq(k, _ => '0')
  }

  function PadLeft(s: string, width: nat): string {
    if |s| < width then Zeros(width - |s|) + s else s
  }

  /** `%0<width>ld`: a minus sign counts toward the width. */
  function PrintPadded(n: int, width: nat): string
    requires width >= 1
  {
    if n < 0 then "-" + PadLeft(PrintNat(-n), width - 1) else PadLeft(PrintNat(n), width)
  }

  /** How many leading characters a digit conversion of the given width consumes. */
  function DigitRun(s: string, width: nat): (k: nat)
    ensures k <= |s| && k <= width && AllDigits(s[..k])
    ensures k < width && k < |s| ==> !IsDigit(s[k])
  {
    if width == 0 || s == "" || !IsDigit(s[0]) then 0
    else
      var k := 1 + DigitRun(s[1..], width - 1);
      assert s[..k] == [s[0]] + s[1..][..k - 1];
      k
  }

  /** A run of digits is consumed up to the width, and stops at a non-digit. */
  lemma {:induction false} DigitRunConcat(d: string, rest: string, width: nat)
    requires AllDigits(d)
    requires rest == "" || !IsDigit(rest[0]) || width <= |d|
    ensures DigitRun(d + rest, width) == if |d| <= width then |d| else width
  {
    if d == "" {
      assert d + rest == rest;
    } else if width > 0 {
      assert (d + rest)[1..] == d[1..] + rest;
      DigitRunConcat(d[1..], rest, width - 1);
    }
  }

  lemma {:induction false} ValueConcat(a: string, b: string)
    ensures Value(a + b) == Value(a) * Pow10(|b|) + Value(b)
  {
    if b == "" {
      assert a + b == a;
    } else {
      var b' := b[..|b| - 1];
      assert (a + b)[..|a + b| - 1] == a + b';
      ValueConcat(a, b');
      assert Value(a) * Pow10(|b|) == Value(a) * Pow10(|b'|) * 10;
    }
  }

  lemma {:induction false} ValueZeros(k: nat)
    ensures Value(Zeros(k)) == 0 && AllDigits(Zeros(k))
  {
    if k > 0 {
      assert Zeros(k)[..k - 1] == Zeros(k - 1);
      ValueZeros(k - 1);
    }
  }

  lemma {:induction false} Pow10Positive(n: nat)
    ensures Pow10(n) >= 1
  {
    if n > 0 {
      Pow10Positive(n - 1);
    }
  }

  lemma {:induction false} PrintNatValue(n: nat)
    ensures AllDigits(PrintNat(n)) && PrintNat(n) != "" && Value(PrintNat(n)) == n
  {
    if n < 10 {
      assert PrintNat(n)[..0] == "";
    } else {
      PrintNatValue(n / 10);
      var s := PrintNat(n);
      assert s[..|s| - 1] == PrintNat(n / 10);
    }
  }

  /** A number has at most k digits exactly when it is below 10^k. */
  lemma {:induction false} PrintNatLength(n: nat, k: nat)
    requires k >= 1
    ensures |PrintNat(n)| <= k <==> n < Pow10(k)
    decreases k
  {
    Pow10Positive(k - 1);
    if n >= 10 {
      PrintNatValue(n / 10);
      if k > 1 {
        PrintNatLength(n / 10, k - 1);
      }
    }
  }

  lemma PadLeftValue(s: string, width: nat)
    requires AllDigits(s)
    ensures AllDigits(PadLeft(s, width)) && Value(PadLeft(s, width)) == Value(s)
  {
    if |s| < width {
      var z := Zeros(width - |s|);
      ValueZeros(width - |s|);
      ValueConcat(z, s);
    }
  }

  lemma PrintPaddedValue(n: nat, width: nat)
    requires width >= 1
    ensures AllDigits(PrintPadded(n, width)) && Value(PrintPadded(n, width)) == n
    ensures n < Pow10(width) ==> |PrintPadded(n, width)| == width
    ensures n >= Pow10(width) ==> PrintPadded(n, width) == PrintNat(n) && |PrintNat(n)| > width
  {
    PrintNatValue(n);
    PrintNatLength(n, width);
    PadLeftValue(PrintNat(n), width);
  }

  lemma {:induction false} DigitsNonNegative(s: string)
    requires AllDigits(s)
    ensures Value(s) >= 0
  {
    if s != "" {
      DigitsNonNegative(s[..|s| - 1]);
    }
  }

  /** Dropping at least one digit at the end divides by at least ten. */
  lemma {:induction false} LeadingDigits(d: string, k: nat)
    requires AllDigits(d) && k < |d|
    ensures 0 <= Value(d[..k]) && Value(d[..k]) * 10 <= Value(d)
    decreases |d|
  {
    var d' := d[..|d| - 1];
    DigitsNonNegative(d');
    assert IsDigit(d[|d| - 1]);
    if k < |d'| {
      LeadingDigits(d', k);
      assert d'[..k] == d[..k];
    }
  }
}
