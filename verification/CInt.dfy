/**
 C and C++ integer operators that differ from Dafny's: division that truncates
 toward zero, and reduction of an unbounded result to a machine word.
 */
module CInt {

  const TWO32 := 0x1_0000_0000
  const TWO63 := 0x8000_0000_0000_0000
  const TWO64 := 0x1_0000_0000_0000_0000

  predicate IsInt32(x: int) {
    -0x8000_0000 <= x < 0x8000_0000
  }

  predicate IsInt64(x: int) {
    -TWO63 <= x < TWO63
  }

  /** Division toward zero; every divisor in the modelled code is positive. */
  function TruncDiv(a: int, b: int): int
    requires b > 0
  {
    if a >= 0 then a / b else -((-a) / b)
  }

  /** Conversion to a 64-bit unsigned word. */
  function ToUint64(x: int): int {
    x % TWO64
  }

  /** Conversion to a 64-bit two's complement word. */
  function ToInt64(x: int): int {
    var u := x % TWO64;
    if u < TWO63 then u else u - TWO64
  }

  /** Conversion to a 32-bit two's complement word. */
  function ToInt32(x: int): int {
    var u := x % TWO32;
    if u < 0x8000_0000 then u else u - TWO32
  }

  lemma ToInt64Identity(x: int)
    requires IsInt64(x)
    ensures ToInt64(x) == x
  {
    if x < 0 {
      assert x % TWO64 == x + TWO64;
    }
  }

  /** The quotient leaves a remainder shorter than the divisor and of the dividend's sign. */
  lemma TruncDivRemainder(a: int, b: int)
    requires b > 0
    ensures -b < a - TruncDiv(a, b) * b < b
    ensures a >= 0 ==> 0 <= a - TruncDiv(a, b) * b
    ensures a <= 0 ==> a - TruncDiv(a, b) * b <= 0
  {
    if a < 0 {
      assert -a == ((-a) / b) * b + (-a) % b;
    }
  }

  lemma SmallMultiple(d: int, b: int)
    requires b > 0 && -b < d * b < b
    ensures d == 0
  {
    assert d >= 1 ==> d * b >= b;
    assert d <= -1 ==> d * b <= -b;
  }

  /** A quotient is determined by its remainder. */
  lemma DivUnique(a: int, b: int, q: int, r: int)
    requires b > 0 && 0 <= r < b && a == q * b + r
    ensures a / b == q && a % b == r
  {
    var d := a / b - q;
    assert d * b == r - a % b by {
      assert a / b * b + a % b == a;
    }
    SmallMultiple(d, b);
  }

  lemma DivMonotone(m: int, n: int, b: int)
    requires b > 0 && m <= n
    ensures m / b <= n / b
  {
    var d := m / b - n / b;
    assert d * b == (m - m % b) - (n - n % b) by {
      assert m / b * b == m - m % b && n / b * b == n - n % b;
    }
    assert d >= 1 ==> d * b >= b;
  }

  lemma TruncDivMonotone(a: int, a': int, b: int)
    requires b > 0 && a <= a'
    ensures TruncDiv(a, b) <= TruncDiv(a', b)
  {
    if a >= 0 {
      DivMonotone(a, a', b);
    } else if a' < 0 {
      DivMonotone(-a', -a, b);
    } else {
      assert 0 / b == 0;
      DivMonotone(0, -a, b);
      DivMonotone(0, a', b);
    }
  }

  /** Congruence modulo p is kept by adding a multiple, and is transitive. */
  lemma ModAddMultiple(x: int, k: int, p: int)
    requires p > 0
    ensures (x + k * p) % p == x % p
  {
    DivUnique(x + k * p, p, x / p + k, x % p);
  }

  lemma ModSum(x: int, y: int, p: int)
    requires p > 0 && x % p == 0 && y % p == 0
    ensures (x + y) % p == 0
  {
    assert y == (y / p) * p;
    ModAddMultiple(x, y / p, p);
  }

  /** Multiples of p less than p apart are equal. */
  lemma MultipleGap(x: int, y: int, p: int)
    requires p > 0 && x % p == 0 && y % p == 0 && -p < y - x < p
    ensures x == y
  {
    assert (y / p - x / p) * p == y - x by {
      assert x == x / p * p && y == y / p * p;
    }
    SmallMultiple(y / p - x / p, p);
  }
}
