/** The arithmetic helper macros of `utils/macros.h`. */
module Macros {

  /** `MIN(a, b)`: on a tie the second argument is returned. */
  function Min(a: int, b: int): (r: int)
    ensures r == a || r == b
    ensures r <= a && r <= b
  {
    if a < b then a else b
  }

  /** `MAX(a, b)`: on a tie the second argument is returned. */
  function Max(a: int, b: int): (r: int)
    ensures r == a || r == b
    ensures r >= a && r >= b
  {
    if a > b then a else b
  }

  /** `CLAMP(v, lo, hi)`, defined as `MAX(lo, MIN(hi, v))`. The lower bound
      always wins: when `lo > hi` the result is `lo`. */
  function Clamp(v: int, lo: int, hi: int): (r: int)
    ensures r == v || r == lo || r == hi
    ensures r >= lo
    ensures lo <= hi ==> lo <= r <= hi
    ensures lo <= v <= hi ==> r == v
    ensures v < lo ==> r == lo
    ensures lo <= hi && hi < v ==> r == hi
    ensures hi < lo ==> r == lo
  {
    Max(lo, Min(hi, v))
  }

  /** `KILOBYTES(x)`. */
  function Kilobytes(x: nat): (r: nat)
    ensures r % 1024 == 0 && r / 1024 == x
  {
    x * 1024
  }

  /** `MEGABYTES(x)`, defined on top of `KILOBYTES`. */
  function Megabytes(x: nat): (r: nat)
    ensures r % (1024 * 1024) == 0 && r / (1024 * 1024) == x
  {
    Kilobytes(x) * 1024
  }
}
