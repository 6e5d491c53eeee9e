/**
 Pressure and temperature compensation of the MS5837-30BA sensor,
 libs/sensors/MS5837-30BA.cpp. The method computes in 32- and 64-bit words, so that its
 well-formedness is the absence of signed overflow; the specification is over the integers.
 */
module Ms5837 {
  import opened CInt

  newtype int32 = x: int | -0x8000_0000 <= x < 0x8000_0000
  newtype int64 = x: int | -0x8000_0000_0000_0000 <= x < 0x8000_0000_0000_0000
  newtype uint64 = x: int | 0 <= x < 0x1_0000_0000_0000_0000
  type uint8 = x: int | 0 <= x < 0x100
  type uint16 = x: int | 0 <= x < 0x1_0000
  type uint24 = x: int | 0 <= x < 0x100_0000

  /** The factory calibration words; `crc_factory` takes no part in the computation. */
  datatype CalData = CalData(c1: uint16, c2: uint16, c3: uint16, c4: uint16, c5: uint16, c6: uint16)

  datatype Reading = Reading(p1: int, temp1: int, p2: int, temp2: int)

  // ---- Specification over the integers ----

  function Dt(d2: uint24, cal: CalData): (dT: int)
    ensures -0x100_0000 < dT < 0x100_0000
  {
    d2 - cal.c5 * 256
  }

  /** Temperature in hundredths of a degree; the quotient is rounded down. */
  function Temp(d2: uint24, cal: CalData): int {
    2000 + Dt(d2, cal) * cal.c6 / 0x80_0000
  }

  function Off(d2: uint24, cal: CalData): int {
    cal.c2 * 0x1_0000 + TruncDiv(cal.c4 * Dt(d2, cal), 128)
  }

  function Sens(d2: uint24, cal: CalData): int {
    cal.c1 * 0x8000 + TruncDiv(cal.c3 * Dt(d2, cal), 256)
  }

  /** Pressure from a sample, a sensitivity and an offset. */
  function Pressure(d1: uint24, sens: int, off: int): int {
    TruncDiv(TruncDiv(d1 * sens, 0x20_0000) - off, 0x2000)
  }

  function Square(x: int): int {
    x * x
  }

  /** Second-order corrections; they switch at 20 degrees and at -16 degrees. */
  function OffCorrection(temp: int): int {
    if temp >= 2000 then TruncDiv(Square(temp - 2000), 16)
    else TruncDiv(3 * Square(temp - 2000), 2) + (if temp <= -1600 then 7 * Square(temp + 1500) else 0)
  }

  function SensCorrection(temp: int): int {
    if temp >= 2000 then 0
    else TruncDiv(5 * Square(temp - 2000), 8) + (if temp <= -1600 then 4 * Square(temp + 1500) else 0)
  }

  function TempCorrection(temp: int, dT: int): int {
    if temp >= 2000 then TruncDiv(2 * Square(dT), 0x20_0000_0000) else TruncDiv(3 * Square(dT), 0x2_0000_0000)
  }

  function Sens2(d2: uint24, cal: CalData): int {
    Sens(d2, cal) - SensCorrection(Temp(d2, cal))
  }

  function Off2(d2: uint24, cal: CalData): int {
    Off(d2, cal) - OffCorrection(Temp(d2, cal))
  }

  function Compensate(d1: uint24, d2: uint24, cal: CalData): Reading {
    var temp := Temp(d2, cal);
    Reading(Pressure(d1, Sens(d2, cal), Off(d2, cal)),
            temp,
            TruncDiv(Pressure(d1, Sens2(d2, cal), Off2(d2, cal)), 10),
            TruncDiv(temp - TempCorrection(temp, Dt(d2, cal)), 100))
  }

  // ---- Bounds ----

  lemma NatProductBound(x: int, y: int, bX: int, bY: int)
    requires 0 <= x <= bX && 0 <= y <= bY
    ensures 0 <= x * y <= bX * bY
  {
    assert x * y <= x * bY && x * bY <= bX * bY;
  }

  lemma ProductBound(x: int, y: int, bX: int, bY: int)
    requires -bX <= x <= bX && -bY <= y <= bY
    ensures -(bX * bY) <= x * y <= bX * bY
  {
    var ax, ay := if x < 0 then -x else x, if y < 0 then -y else y;
    NatProductBound(ax, ay, bX, bY);
    assert x * y == ax * ay || x * y == -(ax * ay);
  }

  lemma QuotientBelow(q: int, b: int, bound: int)
    requires b > 0 && q * b < bound * b + b
    ensures q <= bound
  {
    var d := q - bound - 1;
    assert d * b == q * b - bound * b - b;
    assert d >= 0 ==> d * b >= 0;
  }

  lemma QuotientBound(a: int, b: int, bound: int)
    requires b > 0 && -(bound * b) <= a <= bound * b
    ensures -bound <= TruncDiv(a, b) <= bound
  {
    TruncDivRemainder(a, b);
    var q := TruncDiv(a, b);
    QuotientBelow(q, b, bound);
    assert -q * b == -(q * b);
    QuotientBelow(-q, b, bound);
  }

  /** The first-order quantities are far inside their machine words. */
  lemma FirstOrderBounds(d1: uint24, d2: uint24, cal: CalData)
    ensures var dT := Dt(d2, cal);
            && -0x100_0000_0000 <= dT * cal.c6 <= 0x100_0000_0000
            && -0x100_0000_0000 <= cal.c4 * dT <= 0x100_0000_0000
            && -0x100_0000_0000 <= cal.c3 * dT <= 0x100_0000_0000
    ensures -130_000 <= Temp(d2, cal) <= 134_000
    ensures -0x4_0000_0000 <= Off(d2, cal) <= 0x4_0000_0000
    ensures -0x2_0000_0000 <= Sens(d2, cal) <= 0x2_0000_0000
    ensures -0x200_0000_0000_0000 <= d1 * Sens(d2, cal) <= 0x200_0000_0000_0000
  {
    var dT := Dt(d2, cal);
    ProductBound(dT, cal.c6, 0x100_0000, 0x1_0000);
    ProductBound(cal.c4, dT, 0x1_0000, 0x100_0000);
    ProductBound(cal.c3, dT, 0x1_0000, 0x100_0000);
    QuotientBound(cal.c4 * dT, 128, 0x2_0000_0000);
    QuotientBound(cal.c3 * dT, 256, 0x1_0000_0000);
    ProductBound(d1, Sens(d2, cal), 0x100_0000, 0x2_0000_0000);
  }

  lemma CorrectionBounds(temp: int, dT: int)
    requires -130_000 <= temp <= 134_000 && -0x100_0000 < dT < 0x100_0000
    ensures 0 <= Square(temp - 2000) <= 0x4_4000_0000
    ensures 0 <= Square(temp + 1500) <= 0x4_8000_0000
    ensures 0 <= Square(dT) <= 0x1_0000_0000_0000
    ensures 0 <= OffCorrection(temp) <= 0x40_0000_0000
    ensures 0 <= SensCorrection(temp) <= 0x20_0000_0000
    ensures 0 <= TempCorrection(temp, dT) <= 0x10_0000
  {
    ProductBound(temp - 2000, temp - 2000, 132_000, 132_000);
    ProductBound(temp + 1500, temp + 1500, 135_500, 135_500);
    ProductBound(dT, dT, 0x100_0000, 0x100_0000);
    assert Square(temp - 2000) >= 0 && Square(temp + 1500) >= 0 && Square(dT) >= 0;
  }

  lemma SecondOrderBounds(d1: uint24, d2: uint24, cal: CalData)
    ensures -0x50_0000_0000 <= Off2(d2, cal) <= 0x50_0000_0000
    ensures -0x30_0000_0000 <= Sens2(d2, cal) <= 0x30_0000_0000
    ensures -0x3000_0000_0000_0000 <= d1 * Sens2(d2, cal) <= 0x3000_0000_0000_0000
  {
    FirstOrderBounds(d1, d2, cal);
    CorrectionBounds(Temp(d2, cal), Dt(d2, cal));
    ProductBound(d1, Sens2(d2, cal), 0x100_0000, 0x30_0000_0000);
  }

  lemma PressureBound(d1: uint24, sens: int, off: int)
    requires -0x3000_0000_0000_0000 <= d1 * sens <= 0x3000_0000_0000_0000
    requires -0x50_0000_0000 <= off <= 0x50_0000_0000
    ensures -0x200_0000_0000 <= TruncDiv(d1 * sens, 0x20_0000) <= 0x200_0000_0000
    ensures IsInt32(Pressure(d1, sens, off))
  {
    QuotientBound(d1 * sens, 0x20_0000, 0x180_0000_0000);
    QuotientBound(TruncDiv(d1 * sens, 0x20_0000) - off, 0x2000, 0x1000_0000);
  }

  // ---- The machine computation ----

  /** C++ division of 64-bit words by a positive constant. */
  function Div(a: int64, b: int64): (q: int64)
    requires b > 0
    ensures q as int == TruncDiv(a as int, b as int)
  {
    if a >= 0 then a / b else TruncDiv(a as int, b as int) as int64
  }

  /**
   A signed product divided by an unsigned constant: the product is reinterpreted as unsigned,
   and narrowing the sum to 32 bits undoes the wrap. The result is division rounded down.
   */
  lemma UnsignedQuotient(x: int)
    requires -0x100_0000_0000 <= x <= 0x100_0000_0000
    ensures 2000 + ToUint64(x) / 0x80_0000 < TWO64
    ensures ToInt32(2000 + ToUint64(x) / 0x80_0000) == 2000 + x / 0x80_0000
  {
    if x < 0 {
      assert ToUint64(x) == x + TWO64;
      assert (x + TWO64) / 0x80_0000 == x / 0x80_0000 + 0x200_0000_0000;
    }
  }

  /** A product of 64-bit words; the caller shows that it does not overflow. */
  function Mul(a: int64, b: int64): (r: int64)
    requires IsInt64(a as int * b as int)
    ensures r as int == a as int * b as int
  {
    a * b
  }

  lemma Regroup(k: int, x: int)
    ensures (k * x) * x == k * (x * x)
  {
  }

  lemma LeftSquare(k: int, x: int)
    requires 0 < k <= 8 && -0x100_0000 <= x <= 0x100_0000
    ensures IsInt64(k * x) && IsInt64((k * x) * x) && (k * x) * x == k * Square(x)
  {
    ProductBound(k, x, 8, 0x100_0000);
    ProductBound(k * x, x, 0x800_0000, 0x100_0000);
    Regroup(k, x);
  }

  /** `k * x * x`, evaluated from the left. */
  function ScaledSquare(k: int64, x: int64): (r: int64)
    requires 0 < k <= 8 && -0x100_0000 <= x <= 0x100_0000
    ensures r as int == k as int * Square(x as int)
  {
    LeftSquare(k as int, x as int);
    Mul(Mul(k, x), x)
  }

  /** `2000LL + int64_t(dT) * int64_t(c6) / (1ULL << 23)`, narrowed to 32 bits. */
  function TempWord(dT: int32, c6: uint16): (temp: int32)
    requires -0x100_0000 < dT < 0x100_0000
    ensures temp as int == 2000 + dT as int * c6 / 0x80_0000
  {
    ProductBound(dT as int, c6, 0x100_0000, 0x1_0000);
    UnsignedQuotient(dT as int * c6);
    var product: int64 := Mul(dT as int64, c6 as int64);
    var sum: uint64 := 2000 + ToUint64(product as int) as uint64 / 0x80_0000;
    ToInt32(sum as int) as int32
  }

  /** `int64_t(base) * unit + (int64_t(slope) * int64_t(dT)) / divisor`. */
  function LinearWord(base: uint16, unit: int64, slope: uint16, dT: int32, divisor: int64): (r: int64)
    requires 0 < unit <= 0x1_0000 && divisor > 0 && -0x100_0000 < dT < 0x100_0000
    ensures r as int == base * unit as int + TruncDiv(slope * dT as int, divisor as int)
  {
    ProductBound(slope, dT as int, 0x1_0000, 0x100_0000);
    ProductBound(base, unit as int, 0x1_0000, 0x1_0000);
    assert -0x100_0000_0000 <= TruncDiv(slope * dT as int, divisor as int) <= 0x100_0000_0000 by {
      assert 0x100_0000_0000 * divisor as int >= 0x100_0000_0000;
      QuotientBound(slope * dT as int, divisor as int, 0x100_0000_0000);
    }
    Mul(base as int64, unit) + Div(Mul(slope as int64, dT as int64), divisor)
  }

  /** `(int64_t(d1) * sens / (1LL << 21) - off) / (1LL << 13)`. */
  function PressureWord(d1: uint24, sens: int64, off: int64): (p: int64)
    requires -0x3000_0000_0000_0000 <= d1 * sens as int <= 0x3000_0000_0000_0000
    requires -0x50_0000_0000 <= off <= 0x50_0000_0000
    ensures p as int == Pressure(d1, sens as int, off as int) && IsInt32(p as int)
  {
    PressureBound(d1, sens as int, off as int);
    Div(Div(Mul(d1 as int64, sens), 0x20_0000) - off, 0x2000)
  }

  /** The truncating tests of the code are the thresholds of the specification. */
  lemma BranchThresholds(temp: int)
    ensures TruncDiv(temp, 100) < 20 <==> temp < 2000
    ensures TruncDiv(temp, 100) < -15 <==> temp <= -1600
  {
  }

  /** The branch of `calc_pressure` that assigns the second-order terms. */
  method Corrections(temp: int32, dT: int32) returns (offI: int64, sensI: int64, tI: int64)
    requires -130_000 <= temp <= 134_000 && -0x100_0000 < dT < 0x100_0000
    ensures offI as int == OffCorrection(temp as int)
    ensures sensI as int == SensCorrection(temp as int)
    ensures tI as int == TempCorrection(temp as int, dT as int)
  {
    CorrectionBounds(temp as int, dT as int);
    BranchThresholds(temp as int);
    var t: int64, d: int64 := temp as int64, dT as int64;
    if Div(t, 100) < 20 {
      tI := Div(ScaledSquare(3, d), 0x2_0000_0000);
      offI := Div(ScaledSquare(3, t - 2000), 2);
      sensI := Div(ScaledSquare(5, t - 2000), 8);
      if Div(t, 100) < -15 {
        offI := offI + ScaledSquare(7, t + 1500);
        sensI := sensI + ScaledSquare(4, t + 1500);
      }
    } else {
      tI := Div(ScaledSquare(2, d), 0x20_0000_0000);
      offI := Div(ScaledSquare(1, t - 2000), 16);
      sensI := 0;
    }
  }

  /** `calc_pressure`. Every product, sum and narrowing is proved to fit its word. */
  method CalcPressure(d1: uint24, d2: uint24, cal: CalData) returns (r: Reading)
    ensures r == Compensate(d1, d2, cal)
  {
    FirstOrderBounds(d1, d2, cal);
    SecondOrderBounds(d1, d2, cal);
    var dT: int32 := d2 as int32 - cal.c5 as int32 * 256;
    var temp := TempWord(dT, cal.c6);
    var off := LinearWord(cal.c2, 0x1_0000, cal.c4, dT, 128);
    var sens := LinearWord(cal.c1, 0x8000, cal.c3, dT, 256);
    var p1: int32 := PressureWord(d1, sens, off) as int32;

    var offI, sensI, tI := Corrections(temp, dT);
    CorrectionBounds(temp as int, dT as int);
    var off2: int64 := off - offI;
    var sens2: int64 := sens - sensI;
    var temp2: int32 := Div(temp as int64 - tI, 100) as int32;
    var p2: int32 := Div(PressureWord(d1, sens2, off2), 10) as int32;

    r := Reading(p1 as int, temp as int, p2 as int, temp2 as int);
  }

  // ---- What the result means ----

  function Times(x: real, y: real): real {
    x * y
  }

  /** The data sheet's quantities, without any rounding. */
  function ExactDt(d2: uint24, cal: CalData): real {
    d2 as real - 256.0 * cal.c5 as real
  }

  function ExactTemp(d2: uint24, cal: CalData): real {
    2000.0 + Times(ExactDt(d2, cal), cal.c6 as real) / 8388608.0
  }

  function ExactSens(d2: uint24, cal: CalData): real {
    32768.0 * cal.c1 as real + Times(cal.c3 as real, ExactDt(d2, cal)) / 256.0
  }

  function ExactOff(d2: uint24, cal: CalData): real {
    65536.0 * cal.c2 as real + Times(cal.c4 as real, ExactDt(d2, cal)) / 128.0
  }

  function ExactPressure(d1: uint24, sens: real, off: real): real {
    (Times(d1 as real, sens) / 2097152.0 - off) / 8192.0
  }

  predicate Within(x: real, y: real, e: real) {
    -e < x - y < e
  }

  lemma QuotientAndRest(a: real, q: real, b: real, r: real)
    requires b > 0.0 && a == q * b + r && -b < r < b
    ensures Within(q, a / b, 1.0)
  {
    assert a / b == q + r / b;
    assert -1.0 < r / b < 1.0;
  }

  lemma TruncationError(a: int, b: int)
    requires b > 0
    ensures Within(TruncDiv(a, b) as real, a as real / b as real, 1.0)
  {
    TruncDivRemainder(a, b);
    var q := TruncDiv(a, b);
    var r := a - q * b;
    assert (q * b) as real == q as real * b as real;
    QuotientAndRest(a as real, q as real, b as real, r as real);
  }

  lemma ProductAsReal(x: int, y: int)
    ensures (x * y) as real == Times(x as real, y as real)
  {
  }

  lemma NonNegativeProduct(a: real, b: real)
    requires a >= 0.0 && b >= 0.0
    ensures a * b >= 0.0
  {
  }

  lemma Spread(f: real, u: real, x: real, y: real)
    requires u == 1.0 - (x - y)
    ensures f * u == f - f * x + f * y
  {
  }

  lemma SmallFactor(f: real, x: real, y: real)
    requires f >= 0.0 && Within(x, y, 1.0)
    ensures -f <= Times(f, x) - Times(f, y) <= f
  {
    NonNegativeProduct(f, 1.0 - (x - y));
    NonNegativeProduct(f, 1.0 - (y - x));
    Spread(f, 1.0 - (x - y), x, y);
    Spread(f, 1.0 - (y - x), y, x);
  }

  lemma Rescaled(f: real, x: real, y: real)
    requires 0.0 <= f <= 16777215.0 && -f <= x - y <= f
    ensures Within(x / 2097152.0, y / 2097152.0, 8.0)
  {
  }

  lemma ScaledError(d: uint24, x: real, y: real)
    requires Within(x, y, 1.0)
    ensures Within(Times(d as real, x) / 2097152.0, Times(d as real, y) / 2097152.0, 8.0)
  {
    var f := d as real;
    SmallFactor(f, x, y);
    Rescaled(f, Times(f, x), Times(f, y));
  }

  lemma TermError(base: int, product: int, b: int)
    requires b > 0
    ensures Within((base + TruncDiv(product, b)) as real, base as real + product as real / b as real, 1.0)
  {
    TruncationError(product, b);
  }

  /** Errors below one in sensitivity and offset, then two more truncations. */
  lemma ComposedError(d1: uint24, sens: int, off: int, exactSens: real, exactOff: real)
    requires Within(sens as real, exactSens, 1.0) && Within(off as real, exactOff, 1.0)
    ensures Within(Pressure(d1, sens, off) as real, ExactPressure(d1, exactSens, exactOff),
                   1.0 + 10.0 / 8192.0)
  {
    ScaledError(d1, sens as real, exactSens);
    TruncationError(d1 * sens, 0x20_0000);
    assert (d1 * sens) as real == Times(d1 as real, sens as real);
    var q := TruncDiv(d1 * sens, 0x20_0000) - off;
    assert Within(q as real, Times(d1 as real, exactSens) / 2097152.0 - exactOff, 10.0);
    TruncationError(q, 0x2000);
  }

  lemma FirstOrderError(d2: uint24, cal: CalData)
    ensures Within(Sens(d2, cal) as real, ExactSens(d2, cal), 1.0)
    ensures Within(Off(d2, cal) as real, ExactOff(d2, cal), 1.0)
  {
    TermError(cal.c1 * 0x8000, cal.c3 * Dt(d2, cal), 256);
    TermError(cal.c2 * 0x1_0000, cal.c4 * Dt(d2, cal), 128);
    ProductAsReal(cal.c3, Dt(d2, cal));
    ProductAsReal(cal.c4, Dt(d2, cal));
  }

  /** The four truncations together move the pressure by less than 1 + 10/8192 of its unit. */
  lemma PressureError(d1: uint24, d2: uint24, cal: CalData)
    ensures Within(Compensate(d1, d2, cal).p1 as real,
                   ExactPressure(d1, ExactSens(d2, cal), ExactOff(d2, cal)),
                   1.0 + 10.0 / 8192.0)
  {
    FirstOrderError(d2, cal);
    ComposedError(d1, Sens(d2, cal), Off(d2, cal), ExactSens(d2, cal), ExactOff(d2, cal));
  }

  /** The temperature is the exact one rounded down. */
  lemma TempError(d2: uint24, cal: CalData)
    ensures ExactTemp(d2, cal) - 1.0 < Temp(d2, cal) as real <= ExactTemp(d2, cal)
  {
    var x := Dt(d2, cal) * cal.c6;
    ProductAsReal(Dt(d2, cal), cal.c6);
    assert x == x / 0x80_0000 * 0x80_0000 + x % 0x80_0000;
  }

  // ---- The second order ----

  lemma ScaledSquareAsReal(k: int, x: int)
    ensures (k * Square(x)) as real == k as real * Times(x as real, x as real)
  {
    ProductAsReal(x, x);
    assert (k * Square(x)) as real == k as real * Square(x) as real;
  }

  /** The correction terms are those of the data sheet, each with one truncation. */
  lemma OffCorrectionError(temp: int)
    ensures var x, y := (temp - 2000) as real, (temp + 1500) as real;
            && (temp >= 2000 ==> Within(OffCorrection(temp) as real, Times(x, x) / 16.0, 1.0))
            && (-1600 < temp < 2000 ==> Within(OffCorrection(temp) as real, 3.0 * Times(x, x) / 2.0, 1.0))
            && (temp <= -1600 ==>
                  Within(OffCorrection(temp) as real, 3.0 * Times(x, x) / 2.0 + 7.0 * Times(y, y), 1.0))
  {
    ScaledSquareAsReal(1, temp - 2000);
    ScaledSquareAsReal(3, temp - 2000);
    ScaledSquareAsReal(7, temp + 1500);
    TruncationError(Square(temp - 2000), 16);
    TruncationError(3 * Square(temp - 2000), 2);
  }

  lemma SensCorrectionError(temp: int)
    ensures var x, y := (temp - 2000) as real, (temp + 1500) as real;
            && (temp >= 2000 ==> SensCorrection(temp) == 0)
            && (-1600 < temp < 2000 ==> Within(SensCorrection(temp) as real, 5.0 * Times(x, x) / 8.0, 1.0))
            && (temp <= -1600 ==>
                  Within(SensCorrection(temp) as real, 5.0 * Times(x, x) / 8.0 + 4.0 * Times(y, y), 1.0))
  {
    ScaledSquareAsReal(5, temp - 2000);
    ScaledSquareAsReal(4, temp + 1500);
    TruncationError(5 * Square(temp - 2000), 8);
  }

  lemma TempCorrectionError(temp: int, dT: int)
    ensures var sq := Times(dT as real, dT as real);
            && (temp >= 2000 ==> Within(TempCorrection(temp, dT) as real, 2.0 * sq / 137438953472.0, 1.0))
            && (temp < 2000 ==> Within(TempCorrection(temp, dT) as real, 3.0 * sq / 8589934592.0, 1.0))
  {
    if temp >= 2000 {
      ScaledSquareAsReal(2, dT);
      TruncationError(2 * Square(dT), 0x20_0000_0000);
    } else {
      ScaledSquareAsReal(3, dT);
      TruncationError(3 * Square(dT), 0x2_0000_0000);
    }
  }

  lemma CorrectedTemp(temp: int, tI: int, exactTI: real)
    requires Within(tI as real, exactTI, 1.0)
    ensures Within(TruncDiv(temp - tI, 100) as real, (temp as real - exactTI) / 100.0, 1.01)
  {
    TruncationError(temp - tI, 100);
  }

  /** The second-order temperature, in degrees. */
  lemma SecondTempError(d1: uint24, d2: uint24, cal: CalData)
    ensures var r, dT := Compensate(d1, d2, cal), ExactDt(d2, cal);
            && (r.temp1 >= 2000 ==>
                  Within(r.temp2 as real, (r.temp1 as real - 2.0 * Times(dT, dT) / 137438953472.0) / 100.0, 1.01))
            && (r.temp1 < 2000 ==>
                  Within(r.temp2 as real, (r.temp1 as real - 3.0 * Times(dT, dT) / 8589934592.0) / 100.0, 1.01))
  {
    var temp, dT := Temp(d2, cal), Dt(d2, cal);
    var sq := Times(dT as real, dT as real);
    TempCorrectionError(temp, dT);
    CorrectedTemp(temp, TempCorrection(temp, dT),
                  if temp >= 2000 then 2.0 * sq / 137438953472.0 else 3.0 * sq / 8589934592.0);
  }

  lemma NestedDivision(x: int)
    ensures TruncDiv(TruncDiv(x, 0x2000), 10) == TruncDiv(x, 81920)
  {
  }

  lemma HalvedFactor(f: real, x: real)
    ensures Times(f, x / 2.0) == Times(f, x) / 2.0
  {
  }

  lemma ScaledDoubleError(d: uint24, x: real, y: real)
    requires Within(x, y, 2.0)
    ensures Within(Times(d as real, x) / 2097152.0, Times(d as real, y) / 2097152.0, 16.0)
  {
    ScaledError(d, x / 2.0, y / 2.0);
    HalvedFactor(d as real, x);
    HalvedFactor(d as real, y);
  }

  /** Errors below two in sensitivity and offset, then two more truncations. */
  lemma SecondComposedError(d1: uint24, sens: int, off: int, exactSens: real, exactOff: real)
    requires Within(sens as real, exactSens, 2.0) && Within(off as real, exactOff, 2.0)
    ensures Within(TruncDiv(Pressure(d1, sens, off), 10) as real, ExactPressure(d1, exactSens, exactOff) / 10.0,
                   1.0 + 19.0 / 81920.0)
  {
    ScaledDoubleError(d1, sens as real, exactSens);
    TruncationError(d1 * sens, 0x20_0000);
    ProductAsReal(d1, sens);
    var q := TruncDiv(d1 * sens, 0x20_0000) - off;
    assert Within(q as real, Times(d1 as real, exactSens) / 2097152.0 - exactOff, 19.0);
    NestedDivision(q);
    TruncationError(q, 81920);
  }

  /** The pressure for correction terms that are off by less than one. */
  lemma CorrectedPressure(d1: uint24, d2: uint24, cal: CalData, offI: real, sensI: real)
    requires Within(OffCorrection(Temp(d2, cal)) as real, offI, 1.0)
    requires Within(SensCorrection(Temp(d2, cal)) as real, sensI, 1.0)
    ensures Within(Compensate(d1, d2, cal).p2 as real,
                   ExactPressure(d1, ExactSens(d2, cal) - sensI, ExactOff(d2, cal) - offI) / 10.0,
                   1.0 + 19.0 / 81920.0)
  {
    FirstOrderError(d2, cal);
    SecondComposedError(d1, Sens2(d2, cal), Off2(d2, cal), ExactSens(d2, cal) - sensI, ExactOff(d2, cal) - offI);
  }

  /**
   The compensated pressure, in tenths of the first-order unit, is within 1 + 19/81920 of the data
   sheet's exact one, with the correction terms of each temperature range.
   */
  lemma SecondPressureError(d1: uint24, d2: uint24, cal: CalData)
    ensures var r, s, o := Compensate(d1, d2, cal), ExactSens(d2, cal), ExactOff(d2, cal);
            var x, y := (r.temp1 - 2000) as real, (r.temp1 + 1500) as real;
            && (r.temp1 >= 2000 ==>
                  Within(r.p2 as real, ExactPressure(d1, s, o - Times(x, x) / 16.0) / 10.0, 1.0 + 19.0 / 81920.0))
            && (-1600 < r.temp1 < 2000 ==>
                  Within(r.p2 as real,
                         ExactPressure(d1, s - 5.0 * Times(x, x) / 8.0, o - 3.0 * Times(x, x) / 2.0) / 10.0,
                         1.0 + 19.0 / 81920.0))
            && (r.temp1 <= -1600 ==>
                  Within(r.p2 as real,
                         ExactPressure(d1, s - (5.0 * Times(x, x) / 8.0 + 4.0 * Times(y, y)),
                                       o - (3.0 * Times(x, x) / 2.0 + 7.0 * Times(y, y))) / 10.0,
                         1.0 + 19.0 / 81920.0))
  {
    var temp := Temp(d2, cal);
    var xx := Times((temp - 2000) as real, (temp - 2000) as real);
    var yy := Times((temp + 1500) as real, (temp + 1500) as real);
    OffCorrectionError(temp);
    SensCorrectionError(temp);
    if temp >= 2000 {
      CorrectedPressure(d1, d2, cal, xx / 16.0, 0.0);
    } else if temp > -1600 {
      CorrectedPressure(d1, d2, cal, 3.0 * xx / 2.0, 5.0 * xx / 8.0);
    } else {
      CorrectedPressure(d1, d2, cal, 3.0 * xx / 2.0 + 7.0 * yy, 5.0 * xx / 8.0 + 4.0 * yy);
    }
  }

  // ---- Order ----

  lemma ProductOrder(d: int, d': int, s: int)
    requires d <= d'
    ensures s >= 0 ==> d * s <= d' * s
    ensures s <= 0 ==> d' * s <= d * s
  {
    assert (d' - d) * s == d' * s - d * s;
  }

  /** Temperature never falls as its sample rises. */
  lemma TempMonotone(d2: uint24, d2': uint24, cal: CalData)
    requires d2 <= d2'
    ensures Temp(d2, cal) <= Temp(d2', cal)
  {
    var x, x' := Dt(d2, cal) * cal.c6, Dt(d2', cal) * cal.c6;
    ProductOrder(Dt(d2, cal), Dt(d2', cal), cal.c6);
    DivMonotone(x, x', 0x80_0000);
  }

  lemma PressureMonotone(d1: uint24, d1': uint24, sens: int, off: int)
    requires d1 * sens <= d1' * sens
    ensures TruncDiv(Pressure(d1, sens, off), 10) <= TruncDiv(Pressure(d1', sens, off), 10)
  {
    TruncDivMonotone(d1 * sens, d1' * sens, 0x20_0000);
    TruncDivMonotone(TruncDiv(d1 * sens, 0x20_0000) - off, TruncDiv(d1' * sens, 0x20_0000) - off, 0x2000);
    TruncDivMonotone(Pressure(d1, sens, off), Pressure(d1', sens, off), 10);
  }

  /** The compensated pressure moves with its sample in the direction of the sensitivity's sign. */
  lemma P2Monotone(d1: uint24, d1': uint24, d2: uint24, cal: CalData)
    requires d1 <= d1'
    ensures Sens2(d2, cal) >= 0 ==> Compensate(d1, d2, cal).p2 <= Compensate(d1', d2, cal).p2
    ensures Sens2(d2, cal) <= 0 ==> Compensate(d1, d2, cal).p2 >= Compensate(d1', d2, cal).p2
  {
    var s, o := Sens2(d2, cal), Off2(d2, cal);
    ProductOrder(d1, d1', s);
    if s >= 0 {
      PressureMonotone(d1, d1', s, o);
    }
    if s <= 0 {
      PressureMonotone(d1', d1, s, o);
    }
  }

  /** Both pressure corrections vanish exactly from 20.00 to 20.03 degrees. */
  lemma CorrectionsVanish(temp: int)
    ensures OffCorrection(temp) == 0 && SensCorrection(temp) == 0 <==> 2000 <= temp <= 2003
    ensures OffCorrection(temp) >= 0 && SensCorrection(temp) >= 0
  {
    var x := temp - 2000;
    assert Square(temp + 1500) >= 0;
    assert x >= 4 ==> Square(x) >= 16;
    assert 0 <= x <= 3 ==> 0 <= Square(x) <= 9;
    assert x <= -1 ==> Square(x) >= 1;
  }

  /** There P2 is P1 divided by ten, and always the two nested divisions are one by 81920. */
  lemma SecondOrderPressure(d1: uint24, d2: uint24, cal: CalData)
    ensures 2000 <= Temp(d2, cal) <= 2003 ==>
              Compensate(d1, d2, cal).p2 == TruncDiv(Compensate(d1, d2, cal).p1, 10)
    ensures Compensate(d1, d2, cal).p2
            == TruncDiv(TruncDiv(d1 * Sens2(d2, cal), 0x20_0000) - Off2(d2, cal), 81920)
  {
    CorrectionsVanish(Temp(d2, cal));
    NestedDivision(TruncDiv(d1 * Sens2(d2, cal), 0x20_0000) - Off2(d2, cal));
  }

  // ---- Sampling ----

  /** The 24-bit sample of `sample`, big-endian: each byte can be read back from it. */
  function AssembleSample(b0: bv8, b1: bv8, b2: bv8): (d: bv32)
    ensures d <= 0xFF_FFFF
    ensures d >> 16 == b0 as bv32 && (d >> 8) & 0xFF == b1 as bv32 && d & 0xFF == b2 as bv32
  {
    ((b0 as bv32) << 16) | ((b1 as bv32) << 8) | (b2 as bv32)
  }
}
