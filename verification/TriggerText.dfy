/**
 The text protocol between user space and the trigger kernel module: the line
 `Opaleye_gpio_mod_ctrl::configure` prints into `timer_settings`, and the scan and
 arithmetic that `opaleye_timer_settings_attr_store` applies to whatever is written there.
 */
module TriggerText {
  import opened CInt
  import opened Chrono
  import opened DecimalText
  import opened Wrappers

  const KTIME_MAX := TWO63 - 1
  const KTIME_SEC_MAX := KTIME_MAX / NSEC_PER_SEC

  /** Trigger timing in nanoseconds, as `ktime_t` holds it. */
  datatype Settings = Settings(t0: int, period: int, width: int)

  // ---- User space: the printer ----

  /** `%ld.%09ld` applied to a duration. */
  function PrintDuration(c: int): string {
    var ts := ChronoToTimespec(c);
    PrintInt(ts.sec) + "." + PrintPadded(ts.nsec, 9)
  }

  function ConfigureLine(t0: int, period: int, width: int): string {
    PrintDuration(t0) + ("," + (PrintDuration(period) + ("," + (PrintDuration(width) + "\n"))))
  }

  // ---- Kernel: the scanner ----

  predicate IsSpace(c: char) {
    c == ' ' || '\t' <= c <= '\r' || c as int == 0xA0
  }

  function SkipSpaces(s: string): string {
    if s != "" && IsSpace(s[0]) then SkipSpaces(s[1..]) else s
  }

  /** The digits of `%ld` after its sign; the value wraps to a long. */
  function ScanMagnitude(u: string, negative: bool): Option<(int, string)> {
    var k := DigitRun(u, |u|);
    if k == 0 then None
    else Some((ToInt64(if negative then -Value(u[..k]) else Value(u[..k])), u[k..]))
  }

  /** `%ld`: optional blanks, optional minus, digits. */
  function ScanLong(s: string): Option<(int, string)> {
    var t := SkipSpaces(s);
    if t != "" && t[0] == '-' then ScanMagnitude(t[1..], true) else ScanMagnitude(t, false)
  }

  function ScanChar(s: string, c: char): Option<string> {
    if s != "" && s[0] == c then Some(s[1..]) else None
  }

  /** `%9[0123456789]`: one to nine digits. */
  function ScanDigits(s: string): Option<(string, string)> {
    var k := DigitRun(s, 9);
    if k == 0 then None else Some((s[..k], s[k..]))
  }

  /** `%ld.%9[0123456789]`: seconds, fraction digits, unread rest. */
  function ScanDuration(s: string): Option<(int, string, string)> {
    var (sec, s1) :- ScanLong(s);
    var s2 :- ScanChar(s1, '.');
    var (frac, s3) :- ScanDigits(s2);
    Some((sec, frac, s3))
  }

  /** The six fields of a settings line; anything after them is ignored. */
  function ScanSettings(s: string): Option<((int, string), (int, string), (int, string))> {
    var (sec0, frac0, s1) :- ScanDuration(s);
    var s2 :- ScanChar(s1, ',');
    var (sec1, frac1, s3) :- ScanDuration(s2);
    var s4 :- ScanChar(s3, ',');
    var (sec2, frac2, _) :- ScanDuration(s4);
    Some(((sec0, frac0), (sec1, frac1), (sec2, frac2)))
  }

  function Weighted(digits: int, weight: int): int {
    digits * weight
  }

  /** Nanoseconds that a decimal fraction of a second denotes, digits past the ninth dropped. */
  function FractionNs(frac: string): int {
    if |frac| <= 9 then Weighted(Value(frac), Pow10(9 - |frac|)) else Value(frac[..9])
  }

  /** `nsstr_to_ns`: a running weight, divided by ten at every character. */
  method NsstrToNs(buf: string) returns (accum: int)
    ensures accum == FractionNs(buf)
  {
    accum := 0;
    var mul := 100_000_000;
    var ptr := 0;
    assert Pow10(8) == 100_000_000 by {
      assert Pow10(4) == 10_000;
    }
    while ptr < |buf|
      invariant 0 <= ptr <= |buf|
      invariant mul == if ptr <= 8 then Pow10(8 - ptr) else 0
      invariant accum == FractionNs(buf[..ptr])
    {
      FractionStep(buf[..ptr], buf[ptr]);
      assert buf[..ptr + 1] == buf[..ptr] + [buf[ptr]];
      accum := accum + Weighted(DigitValue(buf[ptr]), mul);
      mul := TruncDiv(mul, 10);
      ptr := ptr + 1;
    }
    assert buf[..ptr] == buf;
  }

  lemma ValueSnoc(s: string, c: char)
    ensures Value(s + [c]) == Value(s) * 10 + DigitValue(c)
  {
    assert (s + [c])[..|s|] == s;
  }

  lemma LongFraction(s: string)
    requires |s| >= 9
    ensures FractionNs(s) == Value(s[..9])
  {
    if |s| == 9 {
      assert s[..9] == s;
      assert Pow10(0) == 1;
    }
  }

  lemma ShortFractionStep(s: string, c: char)
    requires |s| <= 8
    ensures FractionNs(s + [c]) == FractionNs(s) + Weighted(DigitValue(c), Pow10(8 - |s|))
  {
    ValueSnoc(s, c);
    ScaledDigit(Value(s), DigitValue(c), Value(s + [c]), Pow10(8 - |s|), Pow10(9 - |s|));
  }

  lemma FractionStep(s: string, c: char)
    ensures FractionNs(s + [c])
            == FractionNs(s) + Weighted(DigitValue(c), if |s| <= 8 then Pow10(8 - |s|) else 0)
  {
    if |s| <= 8 {
      ShortFractionStep(s, c);
    } else {
      LongFraction(s);
      LongFraction(s + [c]);
      assert (s + [c])[..9] == s[..9];
    }
  }

  lemma ScaledDigit(v: int, d: int, v': int, p: int, p': int)
    requires v' == v * 10 + d && p' == 10 * p
    ensures Weighted(v', p) == Weighted(v, p') + Weighted(d, p)
  {
  }

  /** `ktime_set`, which saturates large second counts. */
  function KtimeSet(sec: int, nsec: int): int {
    if sec >= KTIME_SEC_MAX then KTIME_MAX else ToInt64(sec * NSEC_PER_SEC + nsec)
  }

  /** What a settings line means to the kernel, if it is accepted. */
  function ParseSettings(s: string): Option<Settings> {
    var (a, b, c) :- ScanSettings(s);
    Some(Settings(KtimeSet(a.0, FractionNs(a.1)),
                  KtimeSet(b.0, FractionNs(b.1)),
                  KtimeSet(c.0, FractionNs(c.1))))
  }

  // ---- Printer against scanner ----

  /** Durations whose printed form the kernel accepts. */
  predicate Printable(c: int) {
    c >= 0 || c % NSEC_PER_SEC == 0
  }

  /** A 64-bit duration as a kernel time: exact below the saturation point. */
  function Saturated(c: int): int {
    if c < KTIME_SEC_MAX * NSEC_PER_SEC then c else KTIME_MAX
  }

  lemma ScanDigitText(d: string, rest: string, negative: bool)
    requires AllDigits(d) && d != "" && rest != "" && !IsDigit(rest[0])
    requires IsInt64(if negative then -Value(d) else Value(d))
    ensures ScanMagnitude(d + rest, negative) == Some((if negative then -Value(d) else Value(d), rest))
  {
    var u := d + rest;
    DigitRunConcat(d, rest, |u|);
    assert u[..|d|] == d && u[|d|..] == rest;
    ToInt64Identity(if negative then -Value(d) else Value(d));
  }

  lemma ScanPrintedNat(n: nat, rest: string, negative: bool)
    requires rest != "" && !IsDigit(rest[0]) && IsInt64(if negative then 0 - n else n)
    ensures ScanMagnitude(PrintNat(n) + rest, negative) == Some((if negative then 0 - n else n, rest))
  {
    PrintNatValue(n);
    ScanDigitText(PrintNat(n), rest, negative);
  }

  lemma ScanMinus(u: string)
    ensures ScanLong("-" + u) == ScanMagnitude(u, true)
  {
    assert ("-" + u)[1..] == u;
  }

  lemma ScanUnsigned(u: string)
    requires u != "" && IsDigit(u[0])
    ensures ScanLong(u) == ScanMagnitude(u, false)
  {
  }

  lemma ScanPrintedInt(n: int, rest: string)
    requires IsInt64(n) && rest != "" && !IsDigit(rest[0])
    ensures ScanLong(PrintInt(n) + rest) == Some((n, rest))
  {
    if n < 0 {
      ScanPrintedNat(-n, rest, true);
      assert PrintInt(n) + rest == "-" + (PrintNat(-n) + rest);
      ScanMinus(PrintNat(-n) + rest);
    } else {
      ScanPrintedNat(n, rest, false);
      PrintNatValue(n);
      ScanUnsigned(PrintNat(n) + rest);
    }
  }

  lemma ScanFraction(frac: string, rest: string)
    requires AllDigits(frac) && 1 <= |frac| <= 9
    requires |frac| == 9 || rest == "" || !IsDigit(rest[0])
    ensures ScanDigits(frac + rest) == Some((frac, rest))
  {
    DigitRunConcat(frac, rest, 9);
    assert (frac + rest)[..|frac|] == frac && (frac + rest)[|frac|..] == rest;
  }

  /** The scan of a printed duration is the scan of its fraction. */
  lemma ScanPastSeconds(c: int, rest: string)
    requires IsInt64(c)
    ensures var ts := ChronoToTimespec(c);
            ScanDuration(PrintDuration(c) + rest)
            == match ScanDigits(PrintPadded(ts.nsec, 9) + rest)
               case None => None
               case Some((frac, rest')) => Some((ts.sec, frac, rest'))
  {
    TimespecSplit(c);
    var ts := ChronoToTimespec(c);
    var frac := PrintPadded(ts.nsec, 9);
    var tail := "." + (frac + rest);
    assert PrintDuration(c) + rest == PrintInt(ts.sec) + tail;
    ScanPrintedInt(ts.sec, tail);
    assert tail[1..] == frac + rest;
  }

  /** One printed duration is read back, or refused at the sign of its fraction. */
  lemma ScanPrintedDuration(c: int, rest: string)
    requires IsInt64(c)
    ensures !Printable(c) ==> ScanDuration(PrintDuration(c) + rest) == None
    ensures Printable(c) ==>
              var ts := ChronoToTimespec(c);
              ScanDuration(PrintDuration(c) + rest) == Some((ts.sec, PrintPadded(ts.nsec, 9), rest))
  {
    TimespecSplit(c);
    ScanPastSeconds(c, rest);
    var nsec := ChronoToTimespec(c).nsec;
    if Printable(c) {
      PaddedFraction(nsec);
      ScanFraction(PrintPadded(nsec, 9), rest);
    } else {
      assert (PrintPadded(nsec, 9) + rest)[0] == '-';
    }
  }

  lemma PaddedFraction(nsec: nat)
    requires nsec < NSEC_PER_SEC
    ensures AllDigits(PrintPadded(nsec, 9)) && |PrintPadded(nsec, 9)| == 9
    ensures FractionNs(PrintPadded(nsec, 9)) == nsec
  {
    PrintPaddedValue(nsec, 9);
    assert Pow10(9) == NSEC_PER_SEC by {
      assert Pow10(4) == 10_000;
    }
  }

  lemma StoredDuration(c: int)
    requires IsInt64(c) && Printable(c)
    ensures var ts := ChronoToTimespec(c);
            KtimeSet(ts.sec, FractionNs(PrintPadded(ts.nsec, 9))) == Saturated(c)
  {
    TimespecSplit(c);
    PaddedFraction(ChronoToTimespec(c).nsec);
    ToInt64Identity(c);
  }

  lemma ScanComma(rest: string)
    ensures ScanChar("," + rest, ',') == Some(rest)
  {
    assert ("," + rest)[1..] == rest;
  }

  /**
   The kernel undoes the printer: a configure line is accepted exactly when every duration is
   non-negative or a whole number of seconds, and the stored times then equal the originals to
   the nanosecond, up to the saturation of `ktime_set`.
   */
  lemma ConfigureRoundTrip(t0: int, period: int, width: int)
    requires IsInt64(t0) && IsInt64(period) && IsInt64(width)
    ensures ParseSettings(ConfigureLine(t0, period, width))
            == if Printable(t0) && Printable(period) && Printable(width)
               then Some(Settings(Saturated(t0), Saturated(period), Saturated(width)))
               else None
  {
    var r2 := PrintDuration(width) + "\n";
    var r1 := PrintDuration(period) + ("," + r2);
    ScanComma(r1);
    ScanComma(r2);
    ScanPrintedDuration(t0, "," + r1);
    ScanPrintedDuration(period, "," + r2);
    ScanPrintedDuration(width, "\n");
    if Printable(t0) && Printable(period) && Printable(width) {
      StoredDuration(t0);
      StoredDuration(period);
      StoredDuration(width);
    }
  }

  /** A duration that is not negative is printed as whole seconds, a point and nine digits of the rest. */
  lemma DurationText(c: nat) returns (frac: string)
    ensures PrintDuration(c) == PrintNat(c / NSEC_PER_SEC) + "." + frac
    ensures |frac| == 9 && AllDigits(frac) && Value(frac) == c % NSEC_PER_SEC
  {
    var ts := ChronoToTimespec(c);
    assert ts == Timespec(c / NSEC_PER_SEC, c % NSEC_PER_SEC);
    frac := PrintPadded(ts.nsec, 9);
    PaddedFraction(ts.nsec);
    PrintPaddedValue(ts.nsec, 9);
  }

  // ---- Lines written by hand ----

  /** A duration as somebody may write it: blanks, whole seconds, and one to nine digits of a fraction. */
  datatype Field = Field(blanks: string, sec: int, frac: string)

  predicate FieldOk(f: Field) {
    && (forall i :: 0 <= i < |f.blanks| ==> IsSpace(f.blanks[i]))
    && IsInt64(f.sec) && AllDigits(f.frac) && 1 <= |f.frac| <= 9
  }

  function FieldText(f: Field): string {
    f.blanks + (PrintInt(f.sec) + ("." + f.frac))
  }

  lemma {:induction false} SkipSpacesPast(blanks: string, t: string)
    requires forall i :: 0 <= i < |blanks| ==> IsSpace(blanks[i])
    ensures SkipSpaces(blanks + t) == SkipSpaces(t)
  {
    if blanks == "" {
      assert blanks + t == t;
    } else {
      assert (blanks + t)[1..] == blanks[1..] + t;
      SkipSpacesPast(blanks[1..], t);
    }
  }

  lemma ScanField(f: Field, rest: string)
    requires FieldOk(f) && (|f.frac| == 9 || rest == "" || !IsDigit(rest[0]))
    ensures ScanDuration(FieldText(f) + rest) == Some((f.sec, f.frac, rest))
  {
    var tail := "." + (f.frac + rest);
    assert FieldText(f) + rest == f.blanks + (PrintInt(f.sec) + tail);
    SkipSpacesPast(f.blanks, PrintInt(f.sec) + tail);
    ScanPrintedInt(f.sec, tail);
    assert tail[1..] == f.frac + rest;
    ScanFraction(f.frac, rest);
  }

  /** The kernel time of a field: the fraction counts upward from the seconds, also when they are negative. */
  function FieldTime(f: Field): int
    requires |f.frac| <= 9
  {
    if f.sec >= KTIME_SEC_MAX then KTIME_MAX
    else ToInt64(f.sec * NSEC_PER_SEC + Weighted(Value(f.frac), Pow10(9 - |f.frac|)))
  }

  /** A fraction is less than a second. */
  lemma FractionBelow(frac: string)
    requires AllDigits(frac) && |frac| <= 9
    ensures 0 <= FractionNs(frac) < NSEC_PER_SEC
  {
    ValueBelow(frac);
    Pow10Sum(|frac|, 9 - |frac|);
    ScaledBelow(Value(frac), Pow10(|frac|), Pow10(9 - |frac|));
    assert Pow10(9) == NSEC_PER_SEC by {
      assert Pow10(4) == 10_000;
    }
  }

  lemma ScaledBelow(v: int, bound: int, weight: int)
    requires 0 <= v < bound && weight >= 0
    ensures 0 <= Weighted(v, weight) && (weight > 0 ==> Weighted(v, weight) < Weighted(bound, weight))
  {
    assert (bound - v) * weight == bound * weight - v * weight;
    assert weight > 0 ==> (bound - v) * weight > 0;
  }

  lemma {:induction false} ValueBelow(s: string)
    requires AllDigits(s)
    ensures 0 <= Value(s) < Pow10(|s|)
  {
    if s != "" {
      ValueBelow(s[..|s| - 1]);
    }
  }

  lemma {:induction false} Pow10Sum(m: nat, n: nat)
    ensures Weighted(Pow10(m), Pow10(n)) == Pow10(m + n) && Pow10(n) > 0
  {
    if n == 0 {
      assert Pow10(0) == 1;
    } else {
      Pow10Sum(m, n - 1);
      ScaledDigit(Pow10(m), 0, 10 * Pow10(m), Pow10(n - 1), Pow10(n));
    }
  }

  lemma FieldStored(f: Field)
    requires |f.frac| <= 9
    ensures KtimeSet(f.sec, FractionNs(f.frac)) == FieldTime(f)
  {
  }

  lemma ScanFields(a: Field, b: Field, c: Field, tail: string)
    requires FieldOk(a) && FieldOk(b) && FieldOk(c) && (|c.frac| == 9 || tail == "" || !IsDigit(tail[0]))
    ensures ScanSettings(FieldText(a) + ("," + (FieldText(b) + ("," + (FieldText(c) + tail)))))
            == Some(((a.sec, a.frac), (b.sec, b.frac), (c.sec, c.frac)))
  {
    var r2 := FieldText(c) + tail;
    var r1 := FieldText(b) + ("," + r2);
    ScanComma(r1);
    ScanComma(r2);
    ScanField(a, "," + r1);
    ScanField(b, "," + r2);
    ScanField(c, tail);
  }

  /**
   A line of three such fields is accepted whatever follows it, and each is stored as its seconds plus
   its fraction.
   */
  lemma HandWritten(a: Field, b: Field, c: Field, tail: string)
    requires FieldOk(a) && FieldOk(b) && FieldOk(c) && (|c.frac| == 9 || tail == "" || !IsDigit(tail[0]))
    ensures ParseSettings(FieldText(a) + ("," + (FieldText(b) + ("," + (FieldText(c) + tail)))))
            == Some(Settings(FieldTime(a), FieldTime(b), FieldTime(c)))
  {
    ScanFields(a, b, c, tail);
    FieldStored(a);
    FieldStored(b);
    FieldStored(c);
  }

  /** Written by hand, "-1.5" means half a second before the epoch: the fraction never goes below the seconds. */
  lemma NegativeByHand(f: Field)
    requires FieldOk(f) && -KTIME_SEC_MAX <= f.sec < 0
    ensures FieldTime(f) == f.sec * NSEC_PER_SEC + Weighted(Value(f.frac), Pow10(9 - |f.frac|))
    ensures f.sec * NSEC_PER_SEC <= FieldTime(f) < (f.sec + 1) * NSEC_PER_SEC
  {
    FractionBelow(f.frac);
    ToInt64Identity(f.sec * NSEC_PER_SEC + FractionNs(f.frac));
  }
}
