/**
 * C's uint32_t arithmetic on quantities (addresses, sizes, sector and bank
 * numbers): a value in [0, 2^32) with addition, subtraction and
 * multiplication taken modulo 2^32.
 */
module Uint32 {

  const TWO_32: int := 0x1_0000_0000

  type u32 = x: int | 0 <= x < TWO_32

  /** a + b in uint32_t: wraps past 2^32 - 1. */
  function Add(a: u32, b: u32): (r: u32)
    ensures a + b < TWO_32 ==> r == a + b
    ensures a + b >= TWO_32 ==> r == a + b - TWO_32
  {
    (a + b) % TWO_32
  }

  /** a - b in uint32_t: wraps below 0. */
  function Sub(a: u32, b: u32): (r: u32)
    ensures b <= a ==> r == a - b
    ensures a < b ==> r == a - b + TWO_32
  {
    (a - b) % TWO_32
  }

  /** a * b in uint32_t. */
  function Mul(a: u32, b: u32): (r: u32)
    ensures a * b < TWO_32 ==> r == a * b
    ensures r == (a * b) % TWO_32
  {
    (a * b) % TWO_32
  }

  /** x lies in the closed interval [lo, hi]. */
  predicate InRange(x: int, lo: int, hi: int)
  {
    lo <= x <= hi
  }
}
