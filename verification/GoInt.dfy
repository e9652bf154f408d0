/** Go's 64-bit `int`: its range and its wrap-around on overflow. */
module GoInt {
  const MAX: int := 0x7FFF_FFFF_FFFF_FFFF
  const MIN: int := -0x8000_0000_0000_0000
  const SPAN: int := 0x1_0000_0000_0000_0000

  type Int = x: int | MIN <= x <= MAX

  /** The representative of x modulo 2^64 that fits an `int`. */
  function Wrap(x: int): (r: Int)
    ensures MIN <= x <= MAX ==> r == x
    ensures MAX < x <= MAX + SPAN ==> r == x - SPAN
    ensures MIN - SPAN <= x < MIN ==> r == x + SPAN
  {
    (x - MIN) % SPAN + MIN
  }
}
