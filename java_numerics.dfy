/**
 * The Java numeric conversions the model relies on, stated over Dafny's unbounded
 * `int` and exact `real`.  A Java `double` is modelled by a `real` (rounding is not
 * modelled); the casts `(int)`, `(long)` and `(byte)` are written out explicitly.
 */
module JavaNumerics {

  const PI: real := 3.141592653589793
  /** Double.MAX_VALUE */
  const DOUBLE_MAX: real := 1.7976931348623157e308

  const INT_MIN: int := -0x8000_0000
  const INT_MAX: int := 0x7fff_ffff
  const LONG_MIN: int := -0x8000_0000_0000_0000
  const LONG_MAX: int := 0x7fff_ffff_ffff_ffff

  /** A Java `byte`. */
  type JByte = b: int | -128 <= b < 128

  /** The integral part of `r`, rounding toward zero (the core of a Java floating-point cast). */
  function Trunc(r: real): (n: int)
    ensures 0.0 <= r ==> 0 <= n && n as real <= r < n as real + 1.0
    ensures r < 0.0 ==> n <= 0 && n as real - 1.0 < r <= n as real
  {
    if r >= 0.0 then r.Floor else -((-r).Floor)
  }

  function Clamp(n: int, lo: int, hi: int): (c: int)
    requires lo <= hi
    ensures lo <= c <= hi
    ensures lo <= n <= hi ==> c == n
  {
    if n < lo then lo else if n > hi then hi else n
  }

  /** Java `(int) d` for a finite double `d`: truncation toward zero, saturated to the int range. */
  function ToInt(r: real): (n: int)
    ensures INT_MIN <= n <= INT_MAX
  {
    Clamp(Trunc(r), INT_MIN, INT_MAX)
  }

  /** Java `(long) d` for a finite double `d`. */
  function ToLong(r: real): (n: int)
    ensures LONG_MIN <= n <= LONG_MAX
  {
    Clamp(Trunc(r), LONG_MIN, LONG_MAX)
  }

  /** Java `(int) l` for a long `l`: keeps the low 32 bits, read as a signed value. */
  function LongToInt(n: int): (m: int)
    ensures INT_MIN <= m <= INT_MAX
    ensures (m - n) % 0x1_0000_0000 == 0
  {
    var low := n % 0x1_0000_0000;
    if low > INT_MAX then low - 0x1_0000_0000 else low
  }

  /** Java `(byte) i`: keeps the low 8 bits, read as a signed value. */
  function ToByte(n: int): (b: JByte)
    ensures (b - n) % 256 == 0
    ensures -128 <= n < 128 ==> b == n
  {
    var low := n % 256;
    if low >= 128 then low - 256 else low
  }

  /** Math.ceil of a double whose result is used as an integer. */
  function Ceil(r: real): (n: int)
    ensures r <= n as real < r + 1.0
  {
    -((-r).Floor)
  }

  /** Math.floor of a double whose result is used as an integer. */
  function Floor(r: real): (n: int)
    ensures n as real <= r < n as real + 1.0
  {
    r.Floor
  }

  /** Java `a / b` on integers: the quotient truncated toward zero. */
  function TruncDiv(a: int, b: int): (q: int)
    requires b != 0
    ensures a >= 0 && b > 0 ==> q == a / b
  {
    var q := Abs(a) / Abs(b);
    if (a < 0) != (b < 0) then -q else q
  }

  function Abs(n: int): nat { if n < 0 then -n else n }

  function Pow2(n: nat): (p: nat)
    ensures p >= 1
  {
    if n == 0 then 1 else 2 * Pow2(n - 1)
  }

  /** HEALPix `ilog2`: the position of the highest set bit of max(x, 1). */
  function Ilog2(x: int): (k: nat)
    ensures x >= 1 ==> Pow2(k) <= x < Pow2(k + 1)
    ensures x <= 1 ==> k == 0
  {
    if x <= 1 then 0 else 1 + Ilog2(x / 2)
  }

  /** A `double[]` of length two: a pixel position (x, y), a scale, a field of view or horizontal coordinates. */
  datatype Vec2 = Vec2(x: real, y: real)

  /** Java `a - b` on two ints: the exact difference, wrapped to 32 bits. */
  function IntSub(a: int, b: int): (r: int)
    ensures INT_MIN <= r <= INT_MAX
    ensures INT_MIN <= a - b <= INT_MAX ==> r == a - b
  {
    LongToIntExact(a - b);
    LongToInt(a - b)
  }

  /** Math.abs on an int: the magnitude, except that INT_MIN has none in range and stays INT_MIN. */
  function IntAbs(n: int): (r: int)
    requires INT_MIN <= n <= INT_MAX
    ensures n == INT_MIN ==> r == INT_MIN
    ensures n != INT_MIN ==> r == Abs(n) && 0 <= r
  {
    LongToIntExact(Abs(n));
    LongToInt(Abs(n))
  }

  /** Math.toDegrees, as exact real arithmetic. */
  function ToDegrees(rad: real): real { rad * 180.0 / PI }

  /** Math.toRadians, as exact real arithmetic. */
  function ToRadians(deg: real): real { deg * PI / 180.0 }

  lemma TruncMonotone(a: real, b: real)
    requires a <= b
    ensures Trunc(a) <= Trunc(b)
  {
    if 0.0 <= a {
      assert a.Floor <= b.Floor;
    } else if b < 0.0 {
      assert (-b).Floor <= (-a).Floor;
    }
  }

  lemma ToIntMonotone(a: real, b: real)
    requires a <= b
    ensures ToInt(a) <= ToInt(b)
  {
    TruncMonotone(a, b);
  }

  lemma TruncOfInt(n: int)
    ensures Trunc(n as real) == n
  {
  }

  lemma {:induction false} Pow2Monotone(m: nat, n: nat)
    requires m <= n
    ensures Pow2(m) <= Pow2(n)
  {
    if m < n {
      Pow2Monotone(m, n - 1);
    }
  }

  lemma {:induction false} Pow2Add(m: nat, n: nat)
    ensures Pow2(m + n) == Pow2(m) * Pow2(n)
  {
    if n > 0 {
      Pow2Add(m, n - 1);
    }
  }

  /** 2^29 and 2^30, the largest HEALPix nside and its double. */
  lemma Pow2Of29And30()
    ensures Pow2(29) == 0x2000_0000 && Pow2(30) == 0x4000_0000
  {
    assert Pow2(9) == 512 && Pow2(10) == 1024;
    Pow2Add(10, 10);
    Pow2Add(20, 9);
    Pow2Add(20, 10);
  }

  /** ilog2 of a power of two recovers its exponent. */
  lemma {:induction false} Ilog2OfPow2(k: nat)
    ensures Ilog2(Pow2(k)) == k
  {
    if k > 0 {
      assert Pow2(k) / 2 == Pow2(k - 1);
      Ilog2OfPow2(k - 1);
    }
  }

  /** A value at least 2^k has ilog2 at least k. */
  lemma {:induction false} Ilog2AtLeast(x: int, k: nat)
    requires Pow2(k) <= x
    ensures k <= Ilog2(x)
  {
    if k > 0 {
      assert Pow2(k - 1) <= x / 2;
      Ilog2AtLeast(x / 2, k - 1);
    }
  }

  /** Narrowing a long that already fits an int keeps its value. */
  lemma LongToIntExact(n: int)
    ensures INT_MIN <= n <= INT_MAX ==> LongToInt(n) == n
  {
    if INT_MIN <= n <= INT_MAX {
      LongToIntSmall(n);
    }
  }

  lemma LongToIntSmall(n: int)
    requires INT_MIN <= n <= INT_MAX
    ensures LongToInt(n) == n
  {
    if n < 0 {
      assert n % 0x1_0000_0000 == n + 0x1_0000_0000;
    } else {
      assert n % 0x1_0000_0000 == n;
    }
  }

  /** Integer division by a larger divisor gives a smaller quotient. */
  lemma DivAntitone(n: int, a: int, b: int)
    requires n >= 0 && 0 < a <= b
    ensures n / b <= n / a
  {
    var q := n / b;
    assert b * q <= n by {
      assert n == b * q + n % b;
    }
    MulMonotone(q, a, b);
    DivLowerBound(n, a, q);
  }

  lemma MulMonotone(n: int, a: int, b: int)
    requires n >= 0 && a <= b
    ensures n * a <= n * b
  {
  }

  /** A q with a·q <= n is at most n / a. */
  lemma DivLowerBound(n: int, a: int, q: int)
    requires a > 0 && a * q <= n
    ensures q <= n / a
  {
    var d := n / a;
    assert n == a * d + n % a && n % a < a;
    assert a * q < a * (d + 1);
  }

  /** ilog2 is non-decreasing. */
  lemma {:induction false} Ilog2Monotone(a: int, b: int)
    requires a <= b
    ensures Ilog2(a) <= Ilog2(b)
  {
    if a > 1 {
      Ilog2Monotone(a / 2, b / 2);
    }
  }
}
