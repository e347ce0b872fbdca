/** C's unsigned types, and the facts about products and quotients of integers that several models need. */
module Arithmetic {
  type u8 = x: int | 0 <= x < 0x100
  type u32 = x: int | 0 <= x < 0x1_0000_0000

  /** Reduction modulo 2^32, as unsigned arithmetic does it. */
  function U32(x: int): (r: int)
    ensures 0 <= r < 0x1_0000_0000
  {
    x % 0x1_0000_0000
  }

  /** The value fits the C type int. */
  predicate FitsInt(x: int) {
    -0x8000_0000 <= x < 0x8000_0000
  }

  function Abs(x: int): nat {
    if x < 0 then -x else x
  }

  function Pow2(a: nat): nat {
    if a == 0 then 1 else 2 * Pow2(a - 1)
  }

  lemma Ordered(a: int, b: int, d: int)
    requires a <= b && d >= 0
    ensures a * d <= b * d
  {
  }

  /** A product with a positive factor is at least that factor away from a smaller multiple of it. */
  lemma NextMultiple(a: int, b: int, d: int)
    requires a < b && d >= 0
    ensures a * d + d <= b * d
  {
    Ordered(a + 1, b, d);
  }

  lemma Euclid(n: int, d: int)
    requires d > 0
    ensures n / d * d <= n < n / d * d + d && n == n / d * d + n % d
  {
    assert n == n / d * d + n % d;
  }

  lemma QuotientBounds(n: int, d: int, q: int, low: int, high: int)
    requires d > 0 && q * d <= n < q * d + d && low * d <= n < high * d + d
    ensures low <= q <= high
  {
    if q < low { NextMultiple(q, low, d); }
    if high < q { NextMultiple(high, q, d); }
  }

  lemma DivBounds(n: int, d: int, low: int, high: int)
    requires d > 0 && low * d <= n < high * d + d
    ensures low <= n / d <= high
  {
    Euclid(n, d);
    QuotientBounds(n, d, n / d, low, high);
  }

  lemma DivUnique(n: int, d: int, q: int)
    requires d > 0 && q * d <= n < q * d + d
    ensures n / d == q && n % d == n - q * d
  {
    DivBounds(n, d, q, q);
    Euclid(n, d);
  }

  lemma Divided(n: nat, d: nat)
    requires d > 0
    ensures n / d >= 0 && 0 <= n % d < d && n == n / d * d + n % d
  {
    Euclid(n, d);
    if n / d < 0 { NextMultiple(n / d, 0, d); }
  }

  /** Quotient and remainder under names of their own. */
  lemma DivMod(n: nat, d: nat) returns (q: nat, r: nat)
    requires d > 0
    ensures q == n / d && r == n % d && n == q * d + r && r < d
  {
    Divided(n, d);
    q, r := n / d, n % d;
  }
}
