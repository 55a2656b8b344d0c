/** C integer arithmetic that Dafny's operators do not give directly: division
    truncating toward zero, the 32-bit counters that skip zero, and clamping. */
module Arith {
  const INT64_MAX: int := 0x7fff_ffff_ffff_ffff
  const UINT32_MAX: int := 0xffff_ffff
  const BILLION: int := 1_000_000_000

  type byte = b: int | 0 <= b < 256
  type int8 = i: int | -128 <= i < 128
  type int32 = i: int | -0x8000_0000 <= i < 0x8000_0000
  type uint16 = i: int | 0 <= i <= 0xffff
  type uint32 = i: int | 0 <= i <= UINT32_MAX

  predicate FitsInt64(x: int) { -INT64_MAX - 1 <= x <= INT64_MAX }

  function Abs(x: int): nat { if x < 0 then -x else x }

  function Max(a: int, b: int): int { if a < b then b else a }

  /** `++counter`, stepping over zero at the 32-bit wrap. */
  function Next32(x: uint32): uint32 {
    if x == UINT32_MAX then 1 else x + 1
  }

  function Clamp(x: int, limit: int): int {
    if x > limit then limit else if x < -limit then -limit else x
  }

  /** The `/` of C on signed operands: truncation toward zero. */
  function TruncDiv(a: int, d: int): int
    requires d > 0
  {
    if a >= 0 then a / d else -((-a) / d)
  }

  /** The `%` of C on signed operands: the sign follows the dividend. */
  function TruncRem(a: int, d: int): int
    requires d > 0
  {
    a - d * TruncDiv(a, d)
  }

  /** Truncation is exact to less than one divisor, never past zero. */
  lemma TruncBounds(a: int, d: int)
    requires d > 0
    ensures a >= 0 ==> 0 <= d * TruncDiv(a, d) <= a < d * TruncDiv(a, d) + d
    ensures a <= 0 ==> d * TruncDiv(a, d) - d < a <= d * TruncDiv(a, d) <= 0
  {
    if a < 0 {
      Quotient(-a, d);
      NegateProduct(d, (-a) / d);
    } else {
      Quotient(a, d);
    }
  }

  lemma Quotient(m: nat, d: int)
    requires d > 0
    ensures 0 <= d * (m / d) <= m < d * (m / d) + d
  {
    var q, r := m / d, m % d;
    assert m == d * q + r && 0 <= r < d && q >= 0;
    SignOfProduct(d, q);
  }

  /** A quotient rounded up. */
  lemma Ceiling(n: nat, d: int)
    requires d > 0
    ensures var q := (n + d - 1) / d; d * q >= n && d * (q - 1) < n && (n > 0 ==> q > 0)
  {
    var q := (n + d - 1) / d;
    Quotient(n + d - 1, d);
    Difference(d, q, 1);
    if q <= 0 { SignOfProduct(d, q); }
  }

  lemma NegateProduct(x: int, y: int)
    ensures x * (-y) == -(x * y)
  {
  }

  /** The truncated quotient is the only integer within those bounds. */
  lemma TruncUnique(a: int, d: int, q: int)
    requires d > 0
    requires a >= 0 ==> d * q <= a < d * q + d
    requires a < 0 ==> d * q - d < a <= d * q
    ensures TruncDiv(a, d) == q
  {
    TruncBounds(a, d);
    var t := TruncDiv(a, d);
    StrictlyBelow(d, t, q);
    StrictlyBelow(d, q, t);
  }

  lemma StrictlyBelow(d: int, x: int, y: int)
    requires d > 0
    ensures x < y ==> d * x + d <= d * y
  {
    if x < y {
      AtLeastOnce(d, y - x);
      assert d * (y - x) == d * y - d * x by { Difference(d, y, x); }
    }
  }

  lemma AtLeastOnce(d: int, k: int)
    requires d > 0 && k >= 1
    ensures d * k >= d
  {
    SignOfProduct(d, k - 1);
    Difference(d, k, 1);
  }

  lemma Difference(d: int, y: int, x: int)
    ensures d * (y - x) == d * y - d * x
  {
  }

  /** Splitting a scaled quotient into whole and remainder parts is exact: this is
      what lets the sources avoid a 64-bit overflow of the product `n * k`. */
  lemma SplitQuotient(n: int, k: int, d: int)
    requires d > 0
    ensures TruncDiv(n, d) * k + TruncDiv(TruncRem(n, d) * k, d) == TruncDiv(n * k, d)
  {
    var q, r := TruncDiv(n, d), TruncRem(n, d);
    var s := TruncDiv(r * k, d);
    TruncBounds(n, d);
    TruncBounds(r * k, d);
    assert n == d * q + r;
    Distribute(d, q, r, k);
    Distribute2(d, q, k, s);
    SignOfProduct(n, k);
    SignOfProduct(r, k);
    SignOfProduct(q, k);
    if n * k == 0 {
      if n == 0 { assert q == 0 && r == 0; }
    }
    TruncUnique(n * k, d, q * k + s);
  }

  lemma Distribute(d: int, q: int, r: int, k: int)
    ensures (d * q + r) * k == d * (q * k) + r * k
  {
  }

  lemma Distribute2(d: int, q: int, k: int, s: int)
    ensures d * (q * k + s) == d * (q * k) + d * s
  {
  }

  lemma SignOfProduct(x: int, y: int)
    ensures x > 0 && y > 0 ==> x * y > 0
    ensures x > 0 && y < 0 ==> x * y < 0
    ensures x < 0 && y > 0 ==> x * y < 0
    ensures x < 0 && y < 0 ==> x * y > 0
    ensures x == 0 || y == 0 ==> x * y == 0
  {
  }
}
